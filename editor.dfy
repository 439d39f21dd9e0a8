/**
 * The project, layout and piece container: the layouts of a project, the
 * one that is active, the piece selection, the group drag, the arrow-key
 * nudge, the stacking order, and the manual-dimension and overlay tools.
 *
 * `state.pieces`, `state.cw`, `state.ch`, `state.grid`, `state.scale`
 * and `state.showGrid` are properties whose getters and setters forward
 * to `layouts[active]`. Here that forwarding is explicit: every operation
 * reads `Cur()` and writes back `layouts[active := ...]`.
 */
module Project {
  import opened Wrappers
  import opened JsSets
  import opened Geometry
  import opened Pieces
  import opened Layers
  import opened Dims
  import opened Overlays
  import opened Import

  // ----- Layouts and pieces ------------------------------------------------

  /** A layout: its canvas in inches, the drawing scale, the grid, and what is placed on it. */
  datatype Layout = Layout(
    id: string,
    name: string,
    cw: real,
    ch: real,
    scale: real,
    grid: real,
    showGrid: bool,
    pieces: seq<Piece>,
    dims: seq<Dim>,
    overlays: seq<Overlay>,
    ovSel: int,
    overlayClip: bool)

  /**
   * `makeLayout(name)`: an empty 180 x 120 inch canvas at 6 pixels per
   * inch with a one-inch grid shown. The overlay list it gets on first use
   * is empty, with nothing selected.
   */
  function MakeLayout(id: string, name: string): (l: Layout)
    ensures l.id == id && l.name != "" && (name != "" ==> l.name == name) && (name == "" ==> l.name == "Layout 1")
    ensures l.cw == 180.0 && l.ch == 120.0 && l.scale == 6.0 && l.grid == 1.0 && l.showGrid
    ensures l.pieces == [] && l.dims == [] && l.overlays == [] && l.ovSel == -1
  {
    Layout(id, if name == "" then "Layout 1" else name, 180.0, 120.0, 6.0, 1.0, true, [], [], [], -1, false)
  }

  /** The name the layout list shows: `L.name || \`Layout ${idx+1}\``. */
  function LayoutTitle(l: Layout, idx: nat): (r: string)
    ensures r != "" && (l.name != "" ==> r == l.name)
    ensures l.name == "" ==> r == "Layout " + NumberText(idx + 1)
  {
    if l.name == "" then "Layout " + NumberText(idx + 1) else l.name
  }

  predicate UniqueIds(ps: seq<Piece>)
  {
    forall i, j :: 0 <= i < j < |ps| ==> ps[i].id != ps[j].id
  }

  /** `id` names no piece of `ps`, as a new `uid()` is assumed to. */
  predicate Fresh(id: string, ps: seq<Piece>)
  {
    forall p :: p in ps ==> p.id != id
  }

  /**
   * What every layout keeps: a nonzero grid (the grid input allows no
   * less than a quarter inch, an import keeps the old grid for a zero),
   * distinct piece ids, and at most two overlays with a valid selection.
   */
  predicate LayoutOk(l: Layout)
  {
    l.grid != 0.0 && UniqueIds(l.pieces) && |l.overlays| <= MaxOverlays && ValidSelection(l.overlays, l.ovSel)
  }

  /** `pieces.findIndex(x => x.id === id)`. */
  function FindPiece(ps: seq<Piece>, id: string): (r: Option<nat>)
    ensures r.None? <==> forall i :: 0 <= i < |ps| ==> ps[i].id != id
    ensures r.Some? ==>
      r.value < |ps| && ps[r.value].id == id && forall i :: 0 <= i < r.value ==> ps[i].id != id
  {
    if ps == [] then None
    else if ps[0].id == id then Some(0)
    else
      var r := FindPiece(ps[1..], id);
      if r.None? then None else Some(r.value + 1)
  }

  /** With distinct ids, the piece found for an id is the one that has it. */
  lemma FindUnique(ps: seq<Piece>, i: nat)
    requires UniqueIds(ps) && i < |ps|
    ensures FindPiece(ps, ps[i].id) == Some(i)
  {
  }

  /** A drag-and-drop in the piece list keeps the ids distinct. */
  lemma MovedKeepsUniqueIds(ps: seq<Piece>, from: nat, to: int)
    requires from < |ps| && UniqueIds(ps)
    ensures UniqueIds(Moved(ps, from, to))
  {
    var r := Moved(ps, from, to);
    if to != from && to >= 0 {
      var t := if to < |ps| - 1 then to else |ps| - 1;
      forall a, b | 0 <= a < b < |r|
        ensures r[a].id != r[b].id
      {
        MovedAt(ps, from, to, a);
        MovedAt(ps, from, to, b);
        assert Source(from, t, a) != Source(from, t, b);
      }
    }
  }

  /** Where entry `a` of the moved list comes from, with the piece going from `from` to `t`. */
  function Source(from: nat, t: nat, a: nat): nat
  {
    if a == t then from
    else
      var a' := if a < t then a else a - 1;
      if a' < from then a' else a' + 1
  }

  lemma MovedAt<T>(s: seq<T>, from: nat, to: int, a: nat)
    requires from < |s| && to != from && to >= 0 && a < |s|
    ensures var t := if to < |s| - 1 then to else |s| - 1;
      Source(from, t, a) < |s| && Moved(s, from, to)[a] == s[Source(from, t, a)]
  {
    var r := Moved(s, from, to);
    var t := if to < |s| - 1 then to else |s| - 1;
    var rest := s[..from] + s[from + 1..];
    if a != t {
      var a' := if a < t then a else a - 1;
      assert r[..t] + r[t + 1..] == rest;
      assert r[a] == (r[..t] + r[t + 1..])[a'];
      assert rest[a'] == s[if a' < from then a' else a' + 1];
    }
  }

  /** Splicing out the only piece with an id leaves the other ids distinct and that id unused. */
  lemma RemovedPiece(ps: seq<Piece>, i: nat)
    requires UniqueIds(ps) && i < |ps|
    ensures UniqueIds(ps[..i] + ps[i + 1..]) && Fresh(ps[i].id, ps[..i] + ps[i + 1..])
  {
    var rest := ps[..i] + ps[i + 1..];
    assert forall k :: 0 <= k < |rest| ==> rest[k] == ps[if k < i then k else k + 1];
  }

  // ----- Selection ---------------------------------------------------------

  /** `selectedIds[selectedIds.length - 1] || null`: the last id, unless there is none or it is empty. */
  function LastSelected(ids: seq<string>): (r: Option<string>)
    ensures r.None? <==> |ids| == 0 || ids[|ids| - 1] == ""
    ensures r.Some? ==> r.value != "" && r.value in ids && r.value == ids[|ids| - 1]
  {
    if |ids| == 0 || ids[|ids| - 1] == "" then None else Some(ids[|ids| - 1])
  }

  // ----- Group drag --------------------------------------------------------

  /** A piece of the dragged group as the pointer-down saw it: its offset and its bounding box. */
  datatype Member = Member(id: string, x0: real, y0: real, w: real, h: real)

  /** How far the whole group may move: `dx` in [dxMin, dxMax], `dy` in [dyMin, dyMax]. */
  datatype Limits = Limits(dxMin: real, dxMax: real, dyMin: real, dyMax: real)

  /** `state.drag`: the pointer-down point in inches, the group, and its limits. */
  datatype Drag = Drag(startX: real, startY: real, group: seq<Member>, limits: Limits)

  function MemberOf(v: Version, p: Piece, t: Trig): Member
  {
    var b := PieceBox(v, p, t);
    Member(p.id, p.x, p.y, b.w, b.h)
  }

  /** `pieces.filter(x => isSelected(x.id)).map(...)`: the selected pieces in list order. */
  function Capture(v: Version, ps: seq<Piece>, sel: seq<string>, t: Trig): (g: seq<Member>)
    ensures |g| <= |ps|
    ensures forall m :: m in g ==> exists p :: p in ps && p.id in sel && m == MemberOf(v, p, t)
    ensures forall p :: p in ps && p.id in sel ==> MemberOf(v, p, t) in g
  {
    if ps == [] then []
    else
      var rest := Capture(v, ps[1..], sel, t);
      assert forall p :: p in ps[1..] ==> p in ps;
      if ps[0].id in sel then [MemberOf(v, ps[0], t)] + rest else rest
  }

  /** Capturing a concatenation captures each part, in order. */
  lemma {:induction false} CaptureAppend(v: Version, a: seq<Piece>, b: seq<Piece>, sel: seq<string>, t: Trig)
    ensures Capture(v, a + b, sel, t) == Capture(v, a, sel, t) + Capture(v, b, sel, t)
  {
    if a == [] {
      assert a + b == b;
    } else {
      assert (a + b)[0] == a[0];
      assert (a + b)[1..] == a[1..] + b;
      CaptureAppend(v, a[1..], b, sel, t);
    }
  }

  /** One piece yields its member exactly when its id is selected; with `CaptureAppend` this fixes the list. */
  lemma CaptureOne(v: Version, p: Piece, sel: seq<string>, t: Trig)
    ensures Capture(v, [p], sel, t) == (if p.id in sel then [MemberOf(v, p, t)] else [])
  {
    assert [p][1..] == [];
  }

  /** When every piece is selected the group is the pieces' members, one per piece and in order. */
  lemma {:induction false} CaptureAllSelected(v: Version, ps: seq<Piece>, sel: seq<string>, t: Trig)
    requires forall k :: 0 <= k < |ps| ==> ps[k].id in sel
    ensures |Capture(v, ps, sel, t)| == |ps|
    ensures forall k :: 0 <= k < |ps| ==> Capture(v, ps, sel, t)[k] == MemberOf(v, ps[k], t)
  {
    if ps != [] {
      CaptureAllSelected(v, ps[1..], sel, t);
    }
  }

  /**
   * `minX`, `minY`, `maxX`, `maxY` bound the group's boxes and each is
   * reached by some member.
   */
  ghost predicate IsBounds(g: seq<Member>, minX: real, minY: real, maxX: real, maxY: real)
  {
    (forall m :: m in g ==> minX <= m.x0 && minY <= m.y0 && m.x0 + m.w <= maxX && m.y0 + m.h <= maxY) &&
    (exists m :: m in g && m.x0 == minX) && (exists m :: m in g && m.y0 == minY) &&
    (exists m :: m in g && m.x0 + m.w == maxX) && (exists m :: m in g && m.y0 + m.h == maxY)
  }

  /**
   * The limits of a drag are the distances from the group's bounds to the
   * canvas edges: `dxMin = -minX`, `dxMax = cw - maxX`, likewise for `y`.
   */
  ghost predicate LimitsOf(g: seq<Member>, l: Limits, cw: real, ch: real)
  {
    IsBounds(g, -l.dxMin, -l.dyMin, cw - l.dxMax, ch - l.dyMax)
  }

  /** The member's box, moved by (dx, dy), lies inside the canvas. */
  predicate InsideAfter(m: Member, dx: real, dy: real, cw: real, ch: real)
  {
    0.0 <= m.x0 + dx && m.x0 + dx + m.w <= cw && 0.0 <= m.y0 + dy && m.y0 + dy + m.h <= ch
  }

  /**
   * The pointer-move clamp `Math.max(dxMin, Math.min(dxMax, rawDx))`: if
   * every member started inside the canvas, every member stays inside,
   * and the pointer's own delta is used exactly when it keeps them all
   * inside.
   */
  lemma GroupStaysInside(g: seq<Member>, l: Limits, cw: real, ch: real, rawDx: real, rawDy: real)
    requires g != [] && LimitsOf(g, l, cw, ch)
    requires forall m :: m in g ==> InsideAfter(m, 0.0, 0.0, cw, ch)
    ensures var dx := Clamp(rawDx, l.dxMin, l.dxMax);
      var dy := Clamp(rawDy, l.dyMin, l.dyMax);
      (forall m :: m in g ==> InsideAfter(m, dx, dy, cw, ch)) &&
      ((dx, dy) == (rawDx, rawDy) <==> forall m :: m in g ==> InsideAfter(m, rawDx, rawDy, cw, ch))
  {
    var mx :| mx in g && mx.x0 == -l.dxMin;
    var my :| my in g && my.y0 == -l.dyMin;
    var mX :| mX in g && mX.x0 + mX.w == cw - l.dxMax;
    var mY :| mY in g && mY.y0 + mY.h == ch - l.dyMax;
    assert InsideAfter(mx, 0.0, 0.0, cw, ch) && InsideAfter(my, 0.0, 0.0, cw, ch);
    assert InsideAfter(mX, 0.0, 0.0, cw, ch) && InsideAfter(mY, 0.0, 0.0, cw, ch);
    assert l.dxMin <= 0.0 <= l.dxMax && l.dyMin <= 0.0 <= l.dyMax;
    if forall m :: m in g ==> InsideAfter(m, rawDx, rawDy, cw, ch) {
      assert InsideAfter(mx, rawDx, rawDy, cw, ch) && InsideAfter(mX, rawDx, rawDy, cw, ch);
      assert InsideAfter(my, rawDx, rawDy, cw, ch) && InsideAfter(mY, rawDx, rawDy, cw, ch);
    }
  }

  /** The last member of the group with this id, which is the one a `forEach` over the group writes last. */
  function LastMember(g: seq<Member>, id: string): (r: Option<Member>)
    ensures r.Some? ==> r.value in g && r.value.id == id
    ensures r.None? <==> forall m :: m in g ==> m.id != id
  {
    if g == [] then None
    else if g[|g| - 1].id == id then Some(g[|g| - 1])
    else
      assert forall m :: m in g ==> m in g[..|g| - 1] || m == g[|g| - 1];
      LastMember(g[..|g| - 1], id)
  }

  /** A piece on the pointer-move: at its member's starting point plus the clamped delta. */
  function DraggedPiece(p: Piece, m: Option<Member>, dx: real, dy: real): (q: Piece)
    ensures q == p.(x := q.x, y := q.y)
    ensures m.Some? ==> q.x - m.value.x0 == dx && q.y - m.value.y0 == dy
    ensures m.None? ==> q == p
  {
    if m.Some? then p.(x := m.value.x0 + dx, y := m.value.y0 + dy) else p
  }

  /** A piece at the end of a drag: snapped to the grid if it is in the group. */
  function DroppedPiece(p: Piece, inGroup: bool, grid: real): (q: Piece)
    requires grid != 0.0
    ensures inGroup ==> q == p.(x := q.x, y := q.y) && OnGrid(q.x, grid) && OnGrid(q.y, grid)
    ensures !inGroup ==> q == p
  {
    if inGroup then p.(x := Snap(p.x, grid), y := Snap(p.y, grid)) else p
  }

  /** A dropped piece dropped again does not move: snapping twice is snapping once. */
  lemma DropTwice(p: Piece, grid: real)
    requires grid != 0.0
    ensures DroppedPiece(DroppedPiece(p, true, grid), true, grid) == DroppedPiece(p, true, grid)
  {
    SnapIdempotent(p.x, grid);
    SnapIdempotent(p.y, grid);
  }

  /**
   * The end of a drag snaps without clamping again: a 24-inch box dragged
   * flush against the right edge of a 34.6-inch canvas, at x = 10.6,
   * snaps to x = 11 and sticks out past the edge.
   */
  lemma DropMayCrossEdge()
    ensures Snap(10.6, 1.0) == 11.0 && Snap(10.6, 1.0) + 24.0 > 34.6
  {
    assert Round(10.6 / 1.0) == 11;
  }

  // ----- Import -----------------------------------------------------------

  /**
   * A layout after a single-layout file was loaded into it: the canvas
   * settings as `ImportSettings` gives them and, when the file has a
   * pieces array, the imported pieces with the fresh ids `ids(i)` in place
   * of all the old ones. Its dimensions, overlays, name and id stay.
   */
  function Loaded(v: Version, l: Layout, f: RawLayout, ids: nat -> string, sinkIds: nat -> nat -> string): (r: Layout)
    requires LayoutOk(l)
    requires forall i, j :: 0 <= i < j ==> ids(i) != ids(j)
    ensures LayoutOk(r)
    ensures r.pieces == if f.pieces.Some? then ImportPieces(v, f.pieces.value, ids, sinkIds) else l.pieces
    ensures r == l.(cw := r.cw, ch := r.ch, grid := r.grid, scale := r.scale, showGrid := r.showGrid, pieces := r.pieces)
    ensures Settings(r.cw, r.ch, r.grid, r.scale, r.showGrid) == ImportSettings(Settings(l.cw, l.ch, l.grid, l.scale, l.showGrid), f)
  {
    var s := ImportSettings(Settings(l.cw, l.ch, l.grid, l.scale, l.showGrid), f);
    var ps := if f.pieces.Some? then ImportPieces(v, f.pieces.value, ids, sinkIds) else l.pieces;
    l.(cw := s.cw, ch := s.ch, grid := s.grid, scale := s.scale, showGrid := s.showGrid, pieces := ps)
  }

  // ----- Arrow-key nudge ---------------------------------------------------

  datatype Arrow = ArrowLeft | ArrowRight | ArrowUp | ArrowDown

  /** The move one arrow key asks for, with `step` the grid (four grids with Shift). */
  function ArrowDelta(key: Arrow, step: real): (d: (real, real))
    ensures (key == ArrowLeft || key == ArrowRight) ==> d.1 == 0.0
    ensures (key == ArrowUp || key == ArrowDown) ==> d.0 == 0.0
    ensures (key == ArrowLeft || key == ArrowUp) ==> d.0 + d.1 == -step
    ensures (key == ArrowRight || key == ArrowDown) ==> d.0 + d.1 == step
  {
    match key
    case ArrowLeft => (-step, 0.0)
    case ArrowRight => (step, 0.0)
    case ArrowUp => (0.0, -step)
    case ArrowDown => (0.0, step)
  }

  /**
   * `p.x = clamp(snap(p.x + dx, grid), 0, cw - rs.w)`, and `y` likewise:
   * the nudged piece is snapped to the grid (on both axes, whichever key
   * was pressed) and kept inside the canvas. A position that already fits
   * after the snap is kept as it is.
   */
  function Nudged(v: Version, p: Piece, dx: real, dy: real, grid: real, cw: real, ch: real, t: Trig): (q: Piece)
    requires grid != 0.0
    ensures q == p.(x := q.x, y := q.y)
    ensures var b := PieceBox(v, p, t);
      var sx := Snap(p.x + dx, grid);
      var sy := Snap(p.y + dy, grid);
      (v != CadLite ==> q.x >= 0.0 && q.y >= 0.0) &&
      (b.w <= cw ==> 0.0 <= q.x <= cw - b.w) &&
      (b.h <= ch ==> 0.0 <= q.y <= ch - b.h) &&
      (0.0 <= sx <= cw - b.w ==> q.x == sx && OnGrid(q.x, grid)) &&
      (0.0 <= sy <= ch - b.h ==> q.y == sy && OnGrid(q.y, grid))
  {
    var b := PieceBox(v, p, t);
    p.(x := VersionClamp(v, Snap(p.x + dx, grid), 0.0, cw - b.w),
       y := VersionClamp(v, Snap(p.y + dy, grid), 0.0, ch - b.h))
  }

  /**
   * The pieces an arrow key moves: those whose id is selected, or, when
   * the multi-selection is empty, the first piece with `selectedId`.
   */
  predicate IsNudgeTarget(ps: seq<Piece>, i: nat, selIds: seq<string>, selId: Option<string>)
    requires i < |ps|
  {
    if |selIds| > 0 then ps[i].id in selIds
    else selId.Some? && selId.value != "" && FindPiece(ps, selId.value) == Some(i)
  }

  // ----- Stacking loops ----------------------------------------------------

  /**
   * `normalizeLayers()`: the pieces sorted (stably) by layer, then
   * `byLayer.forEach((p, i) => p.layer = i)`.
   */
  method NormalizePieces(ps: seq<Piece>) returns (r: seq<Piece>)
    ensures r == WithLayers(ps, Normalized(Keys(ps)))
  {
    var ls := Keys(ps);
    var byLayer := Order(ls);
    r := ps;
    for i := 0 to |byLayer|
      invariant |r| == |ps|
      invariant forall k :: 0 <= k < |ps| ==>
        r[k] == if k in byLayer[..i] then ps[k].(layer := FirstIndex(byLayer, k) as real) else ps[k]
    {
      var k := byLayer[i];
      assert k !in byLayer[..i] by {
        forall i' | 0 <= i' < i ensures byLayer[i'] != k {
          assert Before(ls, byLayer[i'], byLayer[i]);
        }
      }
      FirstIndexUnique(byLayer, k, i);
      r := r[k := r[k].(layer := i as real)];
      assert forall k' :: k' in byLayer[..i + 1] <==> k' in byLayer[..i] || k' == k;
    }
    assert byLayer[..|byLayer|] == byLayer;
    forall k | 0 <= k < |ps|
      ensures r[k] == ps[k].(layer := Normalized(ls)[k])
    {
      NormalizedAt(ls, k);
    }
  }

  /** `pieces.forEach((p, i) => p.layer = i)`: the layers follow the list order. */
  method LayersByPosition(ps: seq<Piece>) returns (r: seq<Piece>)
    ensures r == WithLayers(ps, ByPosition(|ps|))
  {
    r := ps;
    for i := 0 to |ps|
      invariant |r| == |ps|
      invariant forall k :: 0 <= k < |ps| ==> r[k] == if k < i then ps[k].(layer := k as real) else ps[k]
    {
      r := r[i := r[i].(layer := i as real)];
    }
  }

  /** `cad-lite.js`'s Forward / Backward: only piece `j`'s layer moves, by `d`. */
  function BumpLayer(ps: seq<Piece>, j: nat, d: real): (r: seq<Piece>)
    requires j < |ps|
    ensures SameIds(ps, r) && r[j].layer == ps[j].layer + d
    ensures forall k :: 0 <= k < |ps| && k != j ==> r[k] == ps[k]
  {
    ps[j := ps[j].(layer := ps[j].layer + d)]
  }

  /** The stack after Forward (`up`) or Backward on piece `j` in version `v`. */
  function Restacked(v: Version, ps: seq<Piece>, j: nat, up: bool): (r: seq<Piece>)
    requires j < |ps|
    ensures SameIds(ps, r)
  {
    if v == CadLite then BumpLayer(ps, j, if up then 1.0 else -1.0)
    else WithLayers(ps, Shifted(Keys(ps), j, up))
  }

  /**
   * `bringForward(id)` (`up`) and `sendBackward(id)` on a list of pieces:
   * normalise, find the piece in the sorted order, trade layers with its
   * neighbour there, normalise again.
   */
  method ShiftPieces(ps: seq<Piece>, j: nat, up: bool) returns (r: seq<Piece>)
    requires j < |ps|
    ensures r == WithLayers(ps, Shifted(Keys(ps), j, up))
  {
    var norm := NormalizePieces(ps);
    var swapped := ExchangePieces(norm, j, up);
    r := NormalizePieces(swapped);
    SameButLayers(ps, swapped, Shifted(Keys(ps), j, up));
  }

  /** The pieces with the layers `Exchanged` gives: `j` and its neighbour trade layers. */
  method ExchangePieces(ps: seq<Piece>, j: nat, up: bool) returns (r: seq<Piece>)
    requires j < |ps|
    ensures r == WithLayers(ps, Exchanged(Keys(ps), j, up))
  {
    var n := Keys(ps);
    var byLayer := Order(n);
    var i := FirstIndex(byLayer, j);
    r := ps;
    if (up && i < |ps| - 1) || (!up && i > 0) {
      var other := if up then byLayer[i + 1] else byLayer[i - 1];
      r := ps[j := ps[j].(layer := ps[other].layer)][other := ps[other].(layer := ps[j].layer)];
    }
  }

  /** Two lists that differ only in their layers get the same pieces from `WithLayers`. */
  lemma SameButLayers(ps: seq<Piece>, qs: seq<Piece>, ls: seq<real>)
    requires |ps| == |qs| == |ls|
    requires forall i :: 0 <= i < |ps| ==> qs[i] == ps[i].(layer := qs[i].layer)
    ensures WithLayers(qs, ls) == WithLayers(ps, ls)
  {
  }

  /** Writing a piece's position keeps the list's ids. */
  predicate SameIds(ps: seq<Piece>, qs: seq<Piece>)
  {
    |ps| == |qs| && forall i :: 0 <= i < |ps| ==> ps[i].id == qs[i].id
  }

  lemma SameIdsUnique(ps: seq<Piece>, qs: seq<Piece>)
    requires SameIds(ps, qs) && UniqueIds(ps)
    ensures UniqueIds(qs)
  {
  }

  /** The piece with this id, if any, placed at (x, y); `FindPiece` then one write. */
  function PlacedAt(ps: seq<Piece>, id: string, x: real, y: real): (r: seq<Piece>)
    requires UniqueIds(ps)
    ensures SameIds(ps, r) && UniqueIds(r)
    ensures forall i :: 0 <= i < |ps| ==> r[i] == if ps[i].id == id then ps[i].(x := x, y := y) else ps[i]
  {
    match FindPiece(ps, id)
    case None => ps
    case Some(i) =>
      assert forall k :: 0 <= k < |ps| && ps[k].id == id ==> k == i;
      ps[i := ps[i].(x := x, y := y)]
  }

  /** The piece with this id, if any, snapped to the grid. */
  function SnappedAt(ps: seq<Piece>, id: string, grid: real): (r: seq<Piece>)
    requires UniqueIds(ps) && grid != 0.0
    ensures SameIds(ps, r) && UniqueIds(r)
    ensures forall i :: 0 <= i < |ps| ==> r[i] == DroppedPiece(ps[i], ps[i].id == id, grid)
  {
    match FindPiece(ps, id)
    case None => ps
    case Some(i) =>
      assert forall k :: 0 <= k < |ps| && ps[k].id == id ==> k == i;
      ps[i := DroppedPiece(ps[i], true, grid)]
  }

  /** The last member with an id, one member longer. */
  lemma LastMemberSnoc(g: seq<Member>, k: nat, id: string)
    requires k < |g|
    ensures LastMember(g[..k + 1], id) == if g[k].id == id then Some(g[k]) else LastMember(g[..k], id)
  {
    assert g[..k + 1][..k] == g[..k];
  }

  /**
   * The pointer-move's `forEach` over the group: the piece with each
   * member's id goes to the member's start plus (dx, dy). With distinct
   * ids, a piece ends where the last member with its id puts it.
   */
  method DragPieces(ps: seq<Piece>, g: seq<Member>, dx: real, dy: real) returns (r: seq<Piece>)
    requires UniqueIds(ps)
    ensures SameIds(ps, r)
    ensures forall i :: 0 <= i < |ps| ==> r[i] == DraggedPiece(ps[i], LastMember(g, ps[i].id), dx, dy)
  {
    r := ps;
    for k := 0 to |g|
      invariant SameIds(ps, r) && UniqueIds(r)
      invariant forall i :: 0 <= i < |ps| ==> r[i] == DraggedPiece(ps[i], LastMember(g[..k], ps[i].id), dx, dy)
    {
      DragStep(ps, r, g, k, dx, dy);
      r := PlacedAt(r, g[k].id, g[k].x0 + dx, g[k].y0 + dy);
    }
    assert g[..|g|] == g;
  }

  /** One pass of the pointer-move's `forEach`: the pieces move as the first `k + 1` members say. */
  lemma DragStep(ps: seq<Piece>, r: seq<Piece>, g: seq<Member>, k: nat, dx: real, dy: real)
    requires k < |g| && SameIds(ps, r) && UniqueIds(r)
    requires forall i :: 0 <= i < |ps| ==> r[i] == DraggedPiece(ps[i], LastMember(g[..k], ps[i].id), dx, dy)
    ensures var r' := PlacedAt(r, g[k].id, g[k].x0 + dx, g[k].y0 + dy);
      SameIds(ps, r') && UniqueIds(r') &&
      forall i :: 0 <= i < |ps| ==> r'[i] == DraggedPiece(ps[i], LastMember(g[..k + 1], ps[i].id), dx, dy)
  {
    var r' := PlacedAt(r, g[k].id, g[k].x0 + dx, g[k].y0 + dy);
    forall i | 0 <= i < |ps|
      ensures r'[i] == DraggedPiece(ps[i], LastMember(g[..k + 1], ps[i].id), dx, dy)
    {
      LastMemberSnoc(g, k, ps[i].id);
    }
  }

  /** The pointer-up's `forEach` over the group: each member's piece is snapped to the grid. */
  method DropPieces(ps: seq<Piece>, g: seq<Member>, grid: real) returns (r: seq<Piece>)
    requires UniqueIds(ps) && grid != 0.0
    ensures SameIds(ps, r)
    ensures forall i :: 0 <= i < |ps| ==> r[i] == DroppedPiece(ps[i], LastMember(g, ps[i].id).Some?, grid)
  {
    r := ps;
    for k := 0 to |g|
      invariant SameIds(ps, r) && UniqueIds(r)
      invariant forall i :: 0 <= i < |ps| ==> r[i] == DroppedPiece(ps[i], LastMember(g[..k], ps[i].id).Some?, grid)
    {
      forall i | 0 <= i < |ps|
        ensures LastMember(g[..k + 1], ps[i].id) ==
          if g[k].id == ps[i].id then Some(g[k]) else LastMember(g[..k], ps[i].id)
        ensures DroppedPiece(DroppedPiece(ps[i], true, grid), true, grid) == DroppedPiece(ps[i], true, grid)
      {
        LastMemberSnoc(g, k, ps[i].id);
        DropTwice(ps[i], grid);
      }
      r := SnappedAt(r, g[k].id, grid);
    }
    assert g[..|g|] == g;
  }

  /** The arrow key's `forEach`: every target piece is `Nudged`, the others stay. */
  method NudgePieces(v: Version, ps: seq<Piece>, selIds: seq<string>, selId: Option<string>,
                     dx: real, dy: real, grid: real, cw: real, ch: real, t: Trig) returns (r: seq<Piece>)
    requires grid != 0.0
    ensures SameIds(ps, r)
    ensures forall i :: 0 <= i < |ps| ==>
      r[i] == if IsNudgeTarget(ps, i, selIds, selId) then Nudged(v, ps[i], dx, dy, grid, cw, ch, t) else ps[i]
  {
    r := ps;
    for i := 0 to |ps|
      invariant |r| == |ps|
      invariant forall k :: 0 <= k < |ps| ==>
        r[k] == if k < i && IsNudgeTarget(ps, k, selIds, selId) then Nudged(v, ps[k], dx, dy, grid, cw, ch, t) else ps[k]
    {
      if IsNudgeTarget(ps, i, selIds, selId) {
        r := r[i := Nudged(v, ps[i], dx, dy, grid, cw, ch, t)];
      }
    }
  }

  /** `state.pieces.forEach(clampToCanvas)`. */
  method ClampPieces(v: Version, ps: seq<Piece>, cw: real, ch: real, t: Trig) returns (r: seq<Piece>)
    ensures SameIds(ps, r)
    ensures forall i :: 0 <= i < |ps| ==> r[i] == ClampToCanvas(v, ps[i], cw, ch, t)
  {
    r := ps;
    for i := 0 to |ps|
      invariant |r| == |ps|
      invariant forall k :: 0 <= k < |ps| ==> r[k] == if k < i then ClampToCanvas(v, ps[k], cw, ch, t) else ps[k]
    {
      r := r[i := ClampToCanvas(v, ps[i], cw, ch, t)];
    }
  }

  /**
   * The bounds of the group, in one pass over it:
   * `minX = Math.min(minX, gp.x0)`, `maxX = Math.max(maxX, gp.x0 + gp.rs.w)`, ...
   * (An empty group has infinite bounds in the source; here it gets zeros.)
   */
  method GroupBounds(g: seq<Member>) returns (minX: real, minY: real, maxX: real, maxY: real)
    ensures g != [] ==> IsBounds(g, minX, minY, maxX, maxY)
  {
    if g == [] {
      return 0.0, 0.0, 0.0, 0.0;
    }
    minX, minY, maxX, maxY := g[0].x0, g[0].y0, g[0].x0 + g[0].w, g[0].y0 + g[0].h;
    for k := 1 to |g|
      invariant IsBounds(g[..k], minX, minY, maxX, maxY)
    {
      assert g[..k + 1] == g[..k] + [g[k]];
      BoundsSnoc(g[..k], g[k], minX, minY, maxX, maxY);
      minX := Min(minX, g[k].x0);
      minY := Min(minY, g[k].y0);
      maxX := Max(maxX, g[k].x0 + g[k].w);
      maxY := Max(maxY, g[k].y0 + g[k].h);
    }
    assert g[..|g|] == g;
  }

  /** One more member widens the bounds to take it in. */
  lemma BoundsSnoc(g: seq<Member>, m: Member, minX: real, minY: real, maxX: real, maxY: real)
    requires IsBounds(g, minX, minY, maxX, maxY)
    ensures IsBounds(g + [m], Min(minX, m.x0), Min(minY, m.y0), Max(maxX, m.x0 + m.w), Max(maxY, m.y0 + m.h))
  {
    var h := g + [m];
    assert m in h;
    assert forall q :: q in g ==> q in h;
    assert forall q :: q in h ==> q in g || q == m;
  }

  /** The drag limits from the group's bounds: how far it may go before a member leaves the canvas. */
  method DragLimits(g: seq<Member>, cw: real, ch: real) returns (l: Limits)
    ensures g != [] ==> LimitsOf(g, l, cw, ch)
  {
    var minX, minY, maxX, maxY := GroupBounds(g);
    l := Limits(-minX, cw - maxX, -minY, ch - maxY);
  }

  // ----- The editor --------------------------------------------------------

  /**
   * The application state: the project fields, the layouts and the active
   * one, the selection, the gesture in progress, and the dimension tool.
   * `version` says which release is modelled; `trig` and `sqrt` stand for
   * `Math.cos`/`Math.sin` and `Math.sqrt`.
   */
  class Editor {
    const version: Version
    const trig: Trig
    const sqrt: real -> real

    var projectName: string
    var projectDate: string
    var notes: string
    var layouts: seq<Layout>
    var active: int
    var selectedIds: seq<string>
    var selectedId: Option<string>
    var drag: Option<Drag>
    var dimTool: bool
    var dimTempStart: Option<Point>
    var selectedDimId: Option<string>
    var dimDrag: Option<DimDrag>

    /** `active` names a layout and every layout keeps `LayoutOk`. */
    ghost predicate Valid()
      reads this
    {
      0 <= active < |layouts| && forall i :: 0 <= i < |layouts| ==> LayoutOk(layouts[i])
    }

    /** `cur()`: the layout every `state.pieces`/`cw`/`ch`/`grid`/`scale` access goes to. */
    function Cur(): Layout
      requires Valid()
      reads this
    {
      layouts[active]
    }

    /** The selection state. */
    function Selection(): (seq<string>, Option<string>)
      reads this
    {
      (selectedIds, selectedId)
    }

    /** The gestures and tools in progress. */
    function Gestures(): (Option<Drag>, bool, Option<Point>, Option<string>, Option<DimDrag>)
      reads this
    {
      (drag, dimTool, dimTempStart, selectedDimId, dimDrag)
    }

    /** The project's name, date and notes. */
    function Meta(): (string, string, string)
      reads this
    {
      (projectName, projectDate, notes)
    }

    /** A fresh editor: one empty layout, nothing selected, no tool active. */
    constructor (version: Version, trig: Trig, sqrt: real -> real, layoutId: string)
      ensures Valid()
      ensures this.version == version && this.trig == trig && this.sqrt == sqrt
      ensures layouts == [MakeLayout(layoutId, "Layout 1")] && active == 0
      ensures Selection() == ([], None) && Gestures() == (None, false, None, None, None)
      ensures Meta() == ("", "", "")
    {
      this.version := version;
      this.trig := trig;
      this.sqrt := sqrt;
      projectName, projectDate, notes := "", "", "";
      layouts := [MakeLayout(layoutId, "Layout 1")];
      active := 0;
      selectedIds, selectedId := [], None;
      drag := None;
      dimTool, dimTempStart, selectedDimId, dimDrag := false, None, None, None;
    }

    /** The proxy's setter: the new value for the current layout. */
    method SetCur(l: Layout)
      requires Valid() && LayoutOk(l)
      modifies this
      ensures Valid() && layouts == old(layouts)[old(active) := l] && active == old(active)
      ensures Selection() == old(Selection()) && Gestures() == old(Gestures()) && Meta() == old(Meta())
    {
      layouts := layouts[active := l];
    }

    // ----- Selection -------------------------------------------------------

    /**
     * `setSelection(ids)`: `Array.from(new Set(ids))` (duplicates dropped,
     * first occurrences kept in order), and `selectedId` the last of them.
     */
    method SetSelection(ids: seq<string>)
      modifies this
      ensures selectedIds == SetFrom(ids) && selectedId == LastSelected(selectedIds)
      ensures Distinct(selectedIds) && InFirstOccurrenceOrder(ids, selectedIds)
      ensures forall y :: y in selectedIds <==> y in ids
      ensures layouts == old(layouts) && active == old(active)
      ensures Gestures() == old(Gestures()) && Meta() == old(Meta())
    {
      SetFromFirstOccurrenceOrder(ids);
      selectedIds := SetFrom(ids);
      selectedId := LastSelected(selectedIds);
    }

    method SelectOnly(id: string)
      modifies this
      ensures selectedIds == [id] && selectedId == (if id == "" then None else Some(id))
      ensures layouts == old(layouts) && active == old(active)
      ensures Gestures() == old(Gestures()) && Meta() == old(Meta())
    {
      SetFromDistinct([id]);
      SetSelection([id]);
    }

    /** `toggleSelect(id)`: a selected id is removed, any other is appended. */
    method ToggleSelect(id: string)
      requires Distinct(selectedIds)
      modifies this
      ensures Distinct(selectedIds)
      ensures id in selectedIds <==> id !in old(selectedIds)
      ensures forall y :: y != id ==> (y in selectedIds <==> y in old(selectedIds))
      ensures id !in old(selectedIds) ==> selectedIds == old(selectedIds) + [id]
      ensures selectedId == LastSelected(selectedIds)
      ensures layouts == old(layouts) && active == old(active)
      ensures Gestures() == old(Gestures()) && Meta() == old(Meta())
    {
      if id in selectedIds {
        SetSelection(Without(selectedIds, id));
      } else {
        var ids := selectedIds + [id];
        assert Distinct(ids);
        SetFromDistinct(ids);
        SetSelection(ids);
      }
    }

    method ClearSelection()
      modifies this
      ensures Selection() == ([], None)
      ensures layouts == old(layouts) && active == old(active)
      ensures Gestures() == old(Gestures()) && Meta() == old(Meta())
    {
      SetSelection([]);
    }

    // ----- Stacking --------------------------------------------------------

    /** `normalizeLayers()` on the current layout. */
    method NormalizeLayers()
      requires Valid()
      modifies this
      ensures Valid() && active == old(active)
      ensures layouts == old(layouts)[active := Cur()]
      ensures Cur() == old(Cur()).(pieces := WithLayers(old(Cur().pieces), Normalized(Keys(old(Cur().pieces)))))
      ensures IsRanking(Keys(Cur().pieces))
      ensures Selection() == old(Selection()) && Gestures() == old(Gestures()) && Meta() == old(Meta())
    {
      var ps := NormalizePieces(Cur().pieces);
      NormalizedRanks(Keys(Cur().pieces));
      SetCur(Cur().(pieces := ps));
    }

    /**
     * Forward / Backward in the inspector for piece `j`. From v1.1.28 on,
     * `bringForward`/`sendBackward`: the piece trades normalised layers
     * with its neighbour above (below) in the stack, see `Shifted`. In
     * `cad-lite.js` the piece's layer only goes one up (down).
     */
    method Restack(j: nat, up: bool)
      requires Valid() && j < |Cur().pieces|
      modifies this
      ensures Valid() && active == old(active)
      ensures layouts == old(layouts)[active := Cur()]
      ensures Cur() == old(Cur()).(pieces := Restacked(version, old(Cur().pieces), j, up))
      ensures Selection() == old(Selection()) && Gestures() == old(Gestures()) && Meta() == old(Meta())
    {
      var ps0 := Cur().pieces;
      var ps;
      if version == CadLite {
        ps := BumpLayer(ps0, j, if up then 1.0 else -1.0);
      } else {
        ps := ShiftPieces(ps0, j, up);
      }
      SameIdsUnique(ps0, ps);
      SetCur(Cur().(pieces := ps));
    }

    method BringForward(j: nat)
      requires Valid() && j < |Cur().pieces|
      modifies this
      ensures Valid() && active == old(active)
      ensures layouts == old(layouts)[active := Cur()]
      ensures Cur() == old(Cur()).(pieces := Restacked(version, old(Cur().pieces), j, true))
      ensures Selection() == old(Selection()) && Gestures() == old(Gestures()) && Meta() == old(Meta())
    {
      Restack(j, true);
    }

    method SendBackward(j: nat)
      requires Valid() && j < |Cur().pieces|
      modifies this
      ensures Valid() && active == old(active)
      ensures layouts == old(layouts)[active := Cur()]
      ensures Cur() == old(Cur()).(pieces := Restacked(version, old(Cur().pieces), j, false))
      ensures Selection() == old(Selection()) && Gestures() == old(Gestures()) && Meta() == old(Meta())
    {
      Restack(j, false);
    }

    /**
     * The piece list's drag-and-drop from row `from` to row `to`: the piece
     * is moved (nothing happens for `to == from` or a negative `to`), then
     * every layer is set to the list position.
     */
    method ReorderPieces(from: nat, to: int)
      requires Valid() && from < |Cur().pieces|
      modifies this
      ensures Valid() && active == old(active)
      ensures layouts == old(layouts)[active := Cur()]
      ensures to == from || to < 0 ==> Cur() == old(Cur())
      ensures to != from && to >= 0 ==>
        Cur() == old(Cur()).(pieces := WithLayers(Moved(old(Cur().pieces), from, to), ByPosition(|old(Cur().pieces)|)))
      ensures to != from && to >= 0 ==> IsRanking(Keys(Cur().pieces))
      ensures Selection() == old(Selection()) && Gestures() == old(Gestures()) && Meta() == old(Meta())
    {
      if to == from || to < 0 {
        return;
      }
      var ps0 := Cur().pieces;
      MovedKeepsUniqueIds(ps0, from, to);
      var ps := LayersByPosition(Moved(ps0, from, to));
      ByPositionRanks(|ps0|);
      SetCur(Cur().(pieces := ps));
    }

    // ----- Pieces ----------------------------------------------------------

    /** "Add piece": `NewPiece` is appended and becomes `selectedId`. */
    method AddPiece(id: string)
      requires Valid() && Fresh(id, Cur().pieces)
      modifies this
      ensures Valid() && active == old(active)
      ensures layouts == old(layouts)[active := Cur()]
      ensures Cur() == old(Cur()).(pieces := old(Cur().pieces) + [NewPiece(version, old(Cur().pieces), id, old(Cur().cw), old(Cur().ch), trig)])
      ensures selectedId == Some(id) && selectedIds == old(selectedIds)
      ensures Gestures() == old(Gestures()) && Meta() == old(Meta())
    {
      var l := Cur();
      var p := NewPiece(version, l.pieces, id, l.cw, l.ch, trig);
      SetCur(l.(pieces := l.pieces + [p]));
      selectedId := Some(id);
    }

    /** A Duplicate button on piece `j`: `CopyPiece` is appended and becomes `selectedId`. */
    method DuplicatePieceAt(j: nat, id: string)
      requires Valid() && j < |Cur().pieces| && Fresh(id, Cur().pieces)
      modifies this
      ensures Valid() && active == old(active)
      ensures layouts == old(layouts)[active := Cur()]
      ensures Cur() == old(Cur()).(pieces := old(Cur().pieces) +
        [CopyPiece(version, old(Cur().pieces[j]), id, old(Cur().grid), old(Cur().cw), old(Cur().ch), trig)])
      ensures selectedId == Some(id) && selectedIds == old(selectedIds)
      ensures Gestures() == old(Gestures()) && Meta() == old(Meta())
    {
      var l := Cur();
      var d := CopyPiece(version, l.pieces[j], id, l.grid, l.cw, l.ch, trig);
      SetCur(l.(pieces := l.pieces + [d]));
      selectedId := Some(id);
    }

    /** A Delete button: the piece with this id is spliced out and the selection cleared. */
    method DeletePiece(id: string)
      requires Valid()
      modifies this
      ensures Valid() && active == old(active)
      ensures layouts == old(layouts)[active := Cur()]
      ensures Fresh(id, Cur().pieces)
      ensures match old(FindPiece(Cur().pieces, id))
        case None => Cur() == old(Cur()) && Selection() == old(Selection())
        case Some(i) =>
          Cur() == old(Cur()).(pieces := old(Cur().pieces)[..i] + old(Cur().pieces)[i + 1..]) &&
          Selection() == ([], None)
      ensures Gestures() == old(Gestures()) && Meta() == old(Meta())
    {
      var l := Cur();
      var idx := FindPiece(l.pieces, id);
      if idx.Some? {
        var i := idx.value;
        RemovedPiece(l.pieces, i);
        SetCur(l.(pieces := l.pieces[..i] + l.pieces[i + 1..]));
        ClearSelection();
      }
    }

    // ----- Canvas settings -------------------------------------------------

    /** `state.pieces.forEach(clampToCanvas)` after the canvas was resized. */
    method ClampAll()
      requires Valid()
      modifies this
      ensures Valid() && active == old(active)
      ensures layouts == old(layouts)[active := Cur()]
      ensures Cur() == old(Cur()).(pieces := Cur().pieces) && |Cur().pieces| == |old(Cur().pieces)|
      ensures forall i :: 0 <= i < |Cur().pieces| ==>
        Cur().pieces[i] == ClampToCanvas(version, old(Cur().pieces[i]), Cur().cw, Cur().ch, trig)
      ensures Selection() == old(Selection()) && Gestures() == old(Gestures()) && Meta() == old(Meta())
    {
      var l := Cur();
      var ps := ClampPieces(version, l.pieces, l.cw, l.ch, trig);
      SameIdsUnique(l.pieces, ps);
      SetCur(l.(pieces := ps));
    }

    /** The canvas width input: at least 12 inches, then every piece is clamped into the canvas. */
    method SetCanvasWidth(v: real)
      requires Valid()
      modifies this
      ensures Valid() && active == old(active)
      ensures layouts == old(layouts)[active := Cur()]
      ensures Cur().cw == Max(12.0, v) && Cur().cw >= 12.0
      ensures Cur() == old(Cur()).(cw := Cur().cw, pieces := Cur().pieces) && |Cur().pieces| == |old(Cur().pieces)|
      ensures forall i :: 0 <= i < |Cur().pieces| ==>
        Cur().pieces[i] == ClampToCanvas(version, old(Cur().pieces[i]), Cur().cw, Cur().ch, trig)
      ensures Selection() == old(Selection()) && Gestures() == old(Gestures()) && Meta() == old(Meta())
    {
      SetCur(Cur().(cw := Max(12.0, v)));
      ClampAll();
    }

    /** The canvas height input, likewise. */
    method SetCanvasHeight(v: real)
      requires Valid()
      modifies this
      ensures Valid() && active == old(active)
      ensures layouts == old(layouts)[active := Cur()]
      ensures Cur().ch == Max(12.0, v) && Cur().ch >= 12.0
      ensures Cur() == old(Cur()).(ch := Cur().ch, pieces := Cur().pieces) && |Cur().pieces| == |old(Cur().pieces)|
      ensures forall i :: 0 <= i < |Cur().pieces| ==>
        Cur().pieces[i] == ClampToCanvas(version, old(Cur().pieces[i]), Cur().cw, Cur().ch, trig)
      ensures Selection() == old(Selection()) && Gestures() == old(Gestures()) && Meta() == old(Meta())
    {
      SetCur(Cur().(ch := Max(12.0, v)));
      ClampAll();
    }

    /** The grid input: at least a quarter inch. */
    method SetGrid(v: real)
      requires Valid()
      modifies this
      ensures Valid() && active == old(active)
      ensures layouts == old(layouts)[active := Cur()]
      ensures Cur() == old(Cur()).(grid := Max(0.25, v)) && Cur().grid >= 0.25
      ensures Selection() == old(Selection()) && Gestures() == old(Gestures()) && Meta() == old(Meta())
    {
      SetCur(Cur().(grid := Max(0.25, v)));
    }

    // ----- Layouts ---------------------------------------------------------

    /** "Add layout": `Layout <n+1>` is appended and becomes the active layout. */
    method AddLayout(id: string)
      requires Valid()
      modifies this
      ensures Valid()
      ensures layouts == old(layouts) + [MakeLayout(id, "Layout " + NumberText(|old(layouts)| + 1))]
      ensures active == |layouts| - 1 && Cur().pieces == [] && Cur().cw == 180.0 && Cur().ch == 120.0
      ensures Selection() == old(Selection()) && Gestures() == old(Gestures()) && Meta() == old(Meta())
    {
      layouts := layouts + [MakeLayout(id, "Layout " + NumberText(|layouts| + 1))];
      active := |layouts| - 1;
    }

    /**
     * A layout's Duplicate button: a deep copy with a new id and " Copy"
     * after its name goes right after it. `active` is left as it was, so
     * copying a layout that comes before the active one moves the view to
     * the layout before it (or to the copy itself).
     */
    method DuplicateLayout(idx: nat, id: string)
      requires Valid() && idx < |layouts|
      modifies this
      ensures Valid() && active == old(active)
      ensures var copy := old(layouts[idx]).(id := id, name := LayoutTitle(old(layouts[idx]), idx) + " Copy");
        layouts == old(layouts)[..idx + 1] + [copy] + old(layouts)[idx + 1..] &&
        (old(active) <= idx ==> Cur() == old(Cur())) &&
        (old(active) == idx + 1 ==> Cur() == copy) &&
        (old(active) > idx + 1 ==> Cur() == old(layouts[active - 1]))
      ensures Selection() == old(Selection()) && Gestures() == old(Gestures()) && Meta() == old(Meta())
    {
      var copy := layouts[idx].(id := id, name := LayoutTitle(layouts[idx], idx) + " Copy");
      layouts := layouts[..idx + 1] + [copy] + layouts[idx + 1..];
    }

    /**
     * A layout's Delete button: refused while it is the only layout, and
     * unless the user confirms; otherwise the layout is spliced out,
     * `active` is pulled back onto the last layout if it fell off the end,
     * and `selectedId` is cleared.
     */
    method DeleteLayout(idx: nat, confirmed: bool)
      requires Valid() && idx < |layouts|
      modifies this
      ensures Valid() && |layouts| >= 1
      ensures |old(layouts)| <= 1 || !confirmed ==>
        layouts == old(layouts) && active == old(active) && Selection() == old(Selection())
      ensures |old(layouts)| > 1 && confirmed ==>
        layouts == old(layouts)[..idx] + old(layouts)[idx + 1..] &&
        active == (if old(active) >= |layouts| then |layouts| - 1 else old(active)) &&
        selectedId == None && selectedIds == old(selectedIds)
      ensures Gestures() == old(Gestures()) && Meta() == old(Meta())
    {
      if |layouts| <= 1 || !confirmed {
        return;
      }
      var rest := layouts[..idx] + layouts[idx + 1..];
      assert forall k :: 0 <= k < |rest| ==> rest[k] == layouts[if k < idx then k else k + 1];
      layouts := rest;
      if active >= |layouts| {
        active := |layouts| - 1;
      }
      selectedId := None;
    }

    /** Clicking a layout's row makes it active and clears `selectedId`. */
    method SelectLayout(idx: nat)
      requires Valid() && idx < |layouts|
      modifies this
      ensures Valid() && layouts == old(layouts) && active == idx && Cur() == old(layouts[idx])
      ensures selectedId == None && selectedIds == old(selectedIds)
      ensures Gestures() == old(Gestures()) && Meta() == old(Meta())
    {
      active := idx;
      selectedId := None;
    }

    // ----- Group drag and nudge --------------------------------------------

    /**
     * The pointer-down on piece `id` at (x, y) inches: Ctrl/Cmd toggles the
     * piece in the selection, a plain press selects only it unless it is
     * already selected; then the selected pieces are captured with their
     * positions, boxes and the limits that keep the group on the canvas.
     */
    method StartDrag(id: string, x: real, y: real, ctrl: bool)
      requires Valid() && Distinct(selectedIds)
      modifies this
      ensures Valid() && layouts == old(layouts) && active == old(active)
      ensures Distinct(selectedIds)
      ensures ctrl ==> (id in selectedIds <==> id !in old(selectedIds))
      ensures !ctrl && id in old(selectedIds) ==> Selection() == old(Selection())
      ensures !ctrl && id !in old(selectedIds) ==> selectedIds == [id]
      ensures drag.Some? && drag.value.startX == x && drag.value.startY == y
      ensures drag.value.group == Capture(version, Cur().pieces, selectedIds, trig)
      ensures drag.value.group != [] ==> LimitsOf(drag.value.group, drag.value.limits, Cur().cw, Cur().ch)
      ensures (dimTool, dimTempStart, selectedDimId, dimDrag) == old((dimTool, dimTempStart, selectedDimId, dimDrag))
      ensures Meta() == old(Meta())
    {
      if ctrl {
        ToggleSelect(id);
      } else if id !in selectedIds {
        SelectOnly(id);
      }
      var l := Cur();
      var g := Capture(version, l.pieces, selectedIds, trig);
      var limits := DragLimits(g, l.cw, l.ch);
      drag := Some(Drag(x, y, g, limits));
    }

    /**
     * The pointer-move during a drag, the pointer at (x, y) inches: the
     * delta from the pointer-down is clamped to the limits and every group
     * member is put at its starting point plus that delta.
     */
    method MoveDrag(x: real, y: real)
      requires Valid()
      modifies this
      ensures Valid() && active == old(active)
      ensures layouts == old(layouts)[active := Cur()]
      ensures old(drag).None? ==> Cur() == old(Cur())
      ensures old(drag).Some? ==>
        var d := old(drag).value;
        var dx := Clamp(x - d.startX, d.limits.dxMin, d.limits.dxMax);
        var dy := Clamp(y - d.startY, d.limits.dyMin, d.limits.dyMax);
        Cur() == old(Cur()).(pieces := Cur().pieces) && |Cur().pieces| == |old(Cur().pieces)| &&
        forall i :: 0 <= i < |Cur().pieces| ==>
          Cur().pieces[i] == DraggedPiece(old(Cur().pieces[i]), LastMember(d.group, old(Cur().pieces[i].id)), dx, dy)
      ensures Selection() == old(Selection()) && Gestures() == old(Gestures()) && Meta() == old(Meta())
    {
      if drag.None? {
        return;
      }
      var d := drag.value;
      var dx := Clamp(x - d.startX, d.limits.dxMin, d.limits.dxMax);
      var dy := Clamp(y - d.startY, d.limits.dyMin, d.limits.dyMax);
      var l := Cur();
      var ps := DragPieces(l.pieces, d.group, dx, dy);
      SameIdsUnique(l.pieces, ps);
      SetCur(l.(pieces := ps));
    }

    /**
     * The pointer-up: every group member is snapped to the grid, without
     * clamping it into the canvas again (see `DropMayCrossEdge`), and the
     * drag ends. From v1.2.25 on the same handler also ends a dimension
     * drag.
     */
    method EndPointerDrag()
      requires Valid()
      modifies this
      ensures Valid() && active == old(active)
      ensures layouts == old(layouts)[active := Cur()]
      ensures old(drag).None? ==> Cur() == old(Cur())
      ensures old(drag).Some? ==>
        Cur() == old(Cur()).(pieces := Cur().pieces) && |Cur().pieces| == |old(Cur().pieces)| &&
        forall i :: 0 <= i < |Cur().pieces| ==>
          Cur().pieces[i] == DroppedPiece(old(Cur().pieces[i]), LastMember(old(drag).value.group, old(Cur().pieces[i].id)).Some?, Cur().grid)
      ensures drag.None?
      ensures dimDrag == (if version == CadLite1_2_25 then None else old(dimDrag))
      ensures Selection() == old(Selection()) && Meta() == old(Meta())
      ensures (dimTool, dimTempStart, selectedDimId) == old((dimTool, dimTempStart, selectedDimId))
    {
      if drag.Some? {
        var l := Cur();
        var ps := DropPieces(l.pieces, drag.value.group, l.grid);
        SameIdsUnique(l.pieces, ps);
        SetCur(l.(pieces := ps));
        drag := None;
      }
      if version == CadLite1_2_25 {
        dimDrag := None;
      }
    }

    /**
     * An arrow key, with or without Shift: each target piece is moved one
     * step of `grid` (four with Shift), snapped and clamped; see `Nudged`.
     */
    method Nudge(key: Arrow, shift: bool)
      requires Valid()
      modifies this
      ensures Valid() && active == old(active)
      ensures layouts == old(layouts)[active := Cur()]
      ensures var g := old(Cur().grid);
        var (dx, dy) := ArrowDelta(key, (if shift then 4.0 else 1.0) * g);
        Cur() == old(Cur()).(pieces := Cur().pieces) && |Cur().pieces| == |old(Cur().pieces)| &&
        forall i :: 0 <= i < |Cur().pieces| ==>
          Cur().pieces[i] ==
            if IsNudgeTarget(old(Cur().pieces), i, old(selectedIds), old(selectedId))
            then Nudged(version, old(Cur().pieces[i]), dx, dy, g, old(Cur().cw), old(Cur().ch), trig)
            else old(Cur().pieces[i])
      ensures Selection() == old(Selection()) && Gestures() == old(Gestures()) && Meta() == old(Meta())
    {
      var l := Cur();
      var (dx, dy) := ArrowDelta(key, (if shift then 4.0 else 1.0) * l.grid);
      var ps := NudgePieces(version, l.pieces, selectedIds, selectedId, dx, dy, l.grid, l.cw, l.ch, trig);
      SameIdsUnique(l.pieces, ps);
      SetCur(l.(pieces := ps));
    }

    // ----- Overlays (v1.2.25) ----------------------------------------------

    /** `addOverlayFromDataURL`: declined at two overlays, else appended and selected. */
    method AddOverlayPhoto(id: string, name: string, dataURL: string, natW: real, natH: real)
      requires Valid() && version == CadLite1_2_25
      modifies this
      ensures Valid() && active == old(active)
      ensures layouts == old(layouts)[active := Cur()]
      ensures var r := AddOverlay(old(Cur().overlays), old(Cur().ovSel), NewOverlay(id, name, dataURL, natW, natH));
        Cur() == old(Cur()).(overlays := r.0, ovSel := r.1)
      ensures |old(Cur().overlays)| >= MaxOverlays ==> Cur() == old(Cur())
      ensures Selection() == old(Selection()) && Gestures() == old(Gestures()) && Meta() == old(Meta())
    {
      var l := Cur();
      AddOverlayKeepsLimit(l.overlays, l.ovSel, NewOverlay(id, name, dataURL, natW, natH));
      var r := AddOverlay(l.overlays, l.ovSel, NewOverlay(id, name, dataURL, natW, natH));
      SetCur(l.(overlays := r.0, ovSel := r.1));
    }

    /** An overlay row's delete button. */
    method DeleteOverlayAt(idx: nat)
      requires Valid() && version == CadLite1_2_25 && idx < |Cur().overlays|
      modifies this
      ensures Valid() && active == old(active)
      ensures layouts == old(layouts)[active := Cur()]
      ensures var r := DeleteOverlay(old(Cur().overlays), old(Cur().ovSel), idx);
        Cur() == old(Cur()).(overlays := r.0, ovSel := r.1)
      ensures Selection() == old(Selection()) && Gestures() == old(Gestures()) && Meta() == old(Meta())
    {
      var l := Cur();
      DeleteOverlayKeepsSelection(l.overlays, l.ovSel, idx);
      var r := DeleteOverlay(l.overlays, l.ovSel, idx);
      SetCur(l.(overlays := r.0, ovSel := r.1));
    }

    /** `selectOverlay(i)`. */
    method SelectOverlayAt(i: int)
      requires Valid() && version == CadLite1_2_25
      modifies this
      ensures Valid() && active == old(active)
      ensures layouts == old(layouts)[active := Cur()]
      ensures Cur() == old(Cur()).(ovSel := SelectOverlay(old(Cur().overlays), i))
      ensures Selection() == old(Selection()) && Gestures() == old(Gestures()) && Meta() == old(Meta())
    {
      SetCur(Cur().(ovSel := SelectOverlay(Cur().overlays, i)));
    }

    /** The clip button: the overlays are shown only on the pieces, or everywhere. */
    method ToggleOverlayClip()
      requires Valid() && version == CadLite1_2_25
      modifies this
      ensures Valid() && active == old(active)
      ensures layouts == old(layouts)[active := Cur()]
      ensures Cur() == old(Cur()).(overlayClip := !old(Cur().overlayClip))
      ensures Selection() == old(Selection()) && Gestures() == old(Gestures()) && Meta() == old(Meta())
    {
      SetCur(Cur().(overlayClip := !Cur().overlayClip));
    }

    // ----- Manual dimensions (v1.2.25) -------------------------------------

    /**
     * The Dim Tool button as it ends up wired: the handler set last flips
     * the tool and, both ways, forgets a half-made dimension and the
     * selected dimension line. An earlier handler that cleared only the
     * half-made dimension, and only when switching off, is overwritten and
     * never runs.
     */
    method ToggleDimTool()
      requires version == CadLite1_2_25
      modifies this
      ensures dimTool == !old(dimTool)
      ensures dimTempStart == None && selectedDimId == None
      ensures (drag, dimDrag) == old((drag, dimDrag))
      ensures layouts == old(layouts) && active == old(active)
      ensures Selection() == old(Selection()) && Meta() == old(Meta())
    {
      dimTool := !dimTool;
      dimTempStart := None;
      selectedDimId := None;
    }

    /**
     * A canvas click at (x, y) inches with the Dim Tool on, away from the
     * drawn dimensions: the first click stores the snapped point, the
     * second appends a dimension from it to the snapped point, selects it
     * and forgets the stored point. `snapped` is the point the click
     * snapped to.
     */
    method DimClick(x: real, y: real, onDimLine: bool, id: string) returns (snapped: Point)
      requires Valid() && version == CadLite1_2_25
      modifies this
      ensures Valid() && active == old(active)
      ensures layouts == old(layouts)[active := Cur()]
      ensures !old(dimTool) || onDimLine ==>
        Cur() == old(Cur()) && (dimTempStart, selectedDimId) == old((dimTempStart, selectedDimId))
      ensures old(dimTool) && !onDimLine ==> SnapsTo(SnapPoints(old(Cur().pieces)), Point(x, y), old(Cur().grid), snapped)
      ensures old(dimTool) && !onDimLine && old(dimTempStart).None? ==>
        Cur() == old(Cur()) && dimTempStart == Some(snapped) && selectedDimId == None
      ensures old(dimTool) && !onDimLine && old(dimTempStart).Some? ==>
        var s := old(dimTempStart).value;
        Cur() == old(Cur()).(dims := old(Cur().dims) + [Dim(id, s.x, s.y, snapped.x, snapped.y, None)]) &&
        dimTempStart == None && selectedDimId == Some(id)
      ensures (drag, dimTool, dimDrag) == old((drag, dimTool, dimDrag))
      ensures Selection() == old(Selection()) && Meta() == old(Meta())
    {
      snapped := Point(x, y);
      if !dimTool || onDimLine {
        return;
      }
      var l := Cur();
      snapped := SnapDimPoint(SnapPoints(l.pieces), Point(x, y), l.grid);
      if dimTempStart.None? {
        dimTempStart := Some(snapped);
        selectedDimId := None;
      } else {
        var s := dimTempStart.value;
        SetCur(l.(dims := l.dims + [Dim(id, s.x, s.y, snapped.x, snapped.y, None)]));
        selectedDimId := Some(id);
        dimTempStart := None;
      }
    }

    /**
     * The pointer-down on drawn dimension `k`: it becomes the selected
     * dimension, the piece selection's `selectedId` is cleared, and an
     * offset drag starts from it.
     */
    method PressDimLine(k: nat)
      requires Valid() && version == CadLite1_2_25 && k < |Cur().dims|
      modifies this
      ensures layouts == old(layouts) && active == old(active) && Valid()
      ensures selectedDimId == Some(Cur().dims[k].id) && selectedId == None && selectedIds == old(selectedIds)
      ensures dimDrag == Some(StartDimDrag(Cur().dims[k], Cur().scale, sqrt))
      ensures (drag, dimTool, dimTempStart) == old((drag, dimTool, dimTempStart))
      ensures Meta() == old(Meta())
    {
      var d := Cur().dims[k];
      selectedDimId := Some(d.id);
      selectedId := None;
      dimDrag := Some(StartDimDrag(d, Cur().scale, sqrt));
    }

    /**
     * The pointer-move during a dimension drag, the pointer at (px, py)
     * pixels: the dragged dimension's `offsetPx` becomes `DragOffset`.
     */
    method MoveDimDrag(px: real, py: real)
      requires Valid() && version == CadLite1_2_25
      modifies this
      ensures Valid() && active == old(active)
      ensures layouts == old(layouts)[active := Cur()]
      ensures old(dimDrag).None? || FindDim(old(Cur().dims), old(dimDrag).value.dimId).None? ==> Cur() == old(Cur())
      ensures old(dimDrag).Some? && FindDim(old(Cur().dims), old(dimDrag).value.dimId).Some? ==>
        var g := old(dimDrag).value;
        var i := FindDim(old(Cur().dims), g.dimId).value;
        Cur() == old(Cur()).(dims := old(Cur().dims)[i := old(Cur().dims[i]).(offsetPx := Some(DragOffset(g, px, py)))])
      ensures Selection() == old(Selection()) && Gestures() == old(Gestures()) && Meta() == old(Meta())
    {
      if dimDrag.None? {
        return;
      }
      var g := dimDrag.value;
      var l := Cur();
      var found := FindDim(l.dims, g.dimId);
      if found.None? {
        return;
      }
      var i := found.value;
      SetCur(l.(dims := l.dims[i := l.dims[i].(offsetPx := Some(DragOffset(g, px, py)))]));
    }

    /**
     * Delete/Backspace with a dimension selected: the first dimension with
     * the selected id is removed and the selection cleared. Nothing happens
     * without a selected id or when no dimension has it.
     */
    method DeleteSelectedDim()
      requires Valid() && version == CadLite1_2_25
      modifies this
      ensures Valid() && active == old(active)
      ensures layouts == old(layouts)[active := Cur()]
      ensures old(selectedDimId).None? || old(selectedDimId).value == "" ||
              FindDim(old(Cur().dims), old(selectedDimId).value).None? ==>
        Cur() == old(Cur()) && selectedDimId == old(selectedDimId)
      ensures old(selectedDimId).Some? && old(selectedDimId).value != "" &&
              FindDim(old(Cur().dims), old(selectedDimId).value).Some? ==>
        var i := FindDim(old(Cur().dims), old(selectedDimId).value).value;
        Cur() == old(Cur()).(dims := old(Cur().dims)[..i] + old(Cur().dims)[i + 1..]) &&
        old(Cur().dims[i].id) == old(selectedDimId).value && selectedDimId == None
      ensures (drag, dimTool, dimTempStart, dimDrag) == old((drag, dimTool, dimTempStart, dimDrag))
      ensures Selection() == old(Selection()) && Meta() == old(Meta())
    {
      if selectedDimId.None? || selectedDimId.value == "" {
        return;
      }
      var l := Cur();
      var found := FindDim(l.dims, selectedDimId.value);
      if found.None? {
        return;
      }
      var i := found.value;
      SetCur(l.(dims := l.dims[..i] + l.dims[i + 1..]));
      selectedDimId := None;
    }

    /** A dimension row's delete button; the selection is cleared only if it was this dimension. */
    method DeleteDimRow(id: string)
      requires Valid() && version == CadLite1_2_25
      modifies this
      ensures Valid() && active == old(active)
      ensures layouts == old(layouts)[active := Cur()]
      ensures FindDim(old(Cur().dims), id).None? ==> Cur() == old(Cur()) && selectedDimId == old(selectedDimId)
      ensures FindDim(old(Cur().dims), id).Some? ==>
        var i := FindDim(old(Cur().dims), id).value;
        Cur() == old(Cur()).(dims := old(Cur().dims)[..i] + old(Cur().dims)[i + 1..]) &&
        selectedDimId == (if old(selectedDimId) == Some(id) then None else old(selectedDimId))
      ensures (drag, dimTool, dimTempStart, dimDrag) == old((drag, dimTool, dimTempStart, dimDrag))
      ensures Selection() == old(Selection()) && Meta() == old(Meta())
    {
      var l := Cur();
      var found := FindDim(l.dims, id);
      if found.None? {
        return;
      }
      var i := found.value;
      SetCur(l.(dims := l.dims[..i] + l.dims[i + 1..]));
      if selectedDimId == Some(id) {
        selectedDimId := None;
      }
    }

    // ----- Import ----------------------------------------------------------

    /**
     * `loadLayout(parsed)` for a single-layout file: the project fields the
     * file gives, the canvas settings (`ImportSettings`), and, when the file
     * has a pieces array, all pieces replaced by the imported ones with the
     * fresh ids `ids(i)`; `selectedId` is cleared.
     */
    method LoadLayout(f: RawLayout, ids: nat -> string, sinkIds: nat -> nat -> string)
      requires Valid()
      requires forall i, j :: 0 <= i < j ==> ids(i) != ids(j)
      modifies this
      ensures Valid() && active == old(active)
      ensures layouts == old(layouts)[active := Cur()]
      ensures Cur() == Loaded(version, old(Cur()), f, ids, sinkIds)
      ensures projectName == (if f.projectName != "" then f.projectName else old(projectName))
      ensures projectDate == (if f.projectDate != "" then f.projectDate else old(projectDate))
      ensures notes == (if f.notes.Some? then f.notes.value else old(notes))
      ensures selectedId == None && selectedIds == old(selectedIds) && Gestures() == old(Gestures())
    {
      SetCur(Loaded(version, Cur(), f, ids, sinkIds));
      if f.projectName != "" {
        projectName := f.projectName;
      }
      if f.projectDate != "" {
        projectDate := f.projectDate;
      }
      if f.notes.Some? {
        notes := f.notes.value;
      }
      selectedId := None;
    }
  }
}
