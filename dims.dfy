/**
 * Manual dimension lines: the points a click snaps to (piece corners and
 * edge midpoints, then the grid), and the perpendicular offset a drag
 * gives a dimension line. Points are in inches, offsets in pixels.
 */
module Dims {
  import opened Wrappers
  import opened Geometry
  import opened Pieces

  datatype Point = Point(x: real, y: real)

  /** A dimension from (x1, y1) to (x2, y2); `offsetPx` is missing until the line is first dragged. */
  datatype Dim = Dim(id: string, x1: real, y1: real, x2: real, y2: real, offsetPx: Option<real>)

  /** `typeof d.offsetPx === 'number' ? d.offsetPx : 12`. */
  function Offset(d: Dim): real
  {
    if d.offsetPx.Some? then d.offsetPx.value else 12.0
  }

  /** `SNAP_IN`: a click snaps to a point at most this far away (inches). */
  const SnapIn: real := 1.0

  /** The four corners of the unrotated piece, then the midpoints of its top, bottom, left and right edges. */
  function PieceSnapPoints(p: Piece): (pts: seq<Point>)
    ensures |pts| == 8
    ensures p.w >= 0.0 && p.h >= 0.0 ==> forall q :: q in pts ==> OnOutline(p, q)
  {
    var x0, y0, x1, y1 := p.x, p.y, p.x + p.w, p.y + p.h;
    [Point(x0, y0), Point(x1, y0), Point(x1, y1), Point(x0, y1),
     Point((x0 + x1) / 2.0, y0), Point((x0 + x1) / 2.0, y1), Point(x0, (y0 + y1) / 2.0), Point(x1, (y0 + y1) / 2.0)]
  }

  /** `q` lies on the edge of the piece's unrotated rectangle. */
  predicate OnOutline(p: Piece, q: Point)
  {
    var inX := p.x <= q.x <= p.x + p.w;
    var inY := p.y <= q.y <= p.y + p.h;
    ((q.y == p.y || q.y == p.y + p.h) && inX) || ((q.x == p.x || q.x == p.x + p.w) && inY)
  }

  /** `getSnapPointsInches()`: eight points per piece, in list order (rotation is ignored). */
  function SnapPoints(pieces: seq<Piece>): (pts: seq<Point>)
    ensures |pts| == 8 * |pieces|
    ensures forall i, k :: 0 <= i < |pieces| && 0 <= k < 8 ==> pts[8 * i + k] == PieceSnapPoints(pieces[i])[k]
  {
    if pieces == [] then []
    else
      var rest := SnapPoints(pieces[1..]);
      assert forall i :: 1 <= i < |pieces| ==> pieces[1..][i - 1] == pieces[i];
      PieceSnapPoints(pieces[0]) + rest
  }

  /** A point is offered iff it is a snap point of some piece. */
  lemma {:induction false} SnapPointsMembers(pieces: seq<Piece>)
    ensures forall q :: q in SnapPoints(pieces) <==> exists p :: p in pieces && q in PieceSnapPoints(p)
  {
    if pieces != [] {
      SnapPointsMembers(pieces[1..]);
      assert SnapPoints(pieces) == PieceSnapPoints(pieces[0]) + SnapPoints(pieces[1..]);
      assert forall p :: p in pieces <==> p == pieces[0] || p in pieces[1..];
    }
  }

  /** The squared distance `dx * dx + dy * dy`. */
  function Dist2(a: Point, b: Point): (d: real)
    ensures d >= 0.0
  {
    (a.x - b.x) * (a.x - b.x) + (a.y - b.y) * (a.y - b.y)
  }

  /** `pts[i]` is as close to `pt` as any point, and later than every other point that close. */
  predicate IsLastNearest(pts: seq<Point>, pt: Point, i: nat)
  {
    i < |pts| &&
    (forall j :: 0 <= j < |pts| ==> Dist2(pts[i], pt) <= Dist2(pts[j], pt)) &&
    (forall j :: i < j < |pts| ==> Dist2(pts[i], pt) < Dist2(pts[j], pt))
  }

  /** The grid node nearest to `pt`: `Math.round(x / g) * g`, and likewise `y`. */
  function GridNode(pt: Point, g: real): (q: Point)
    requires g > 0.0
    ensures OnGrid(q.x, g) && OnGrid(q.y, g)
  {
    Point(Snap(pt.x, g), Snap(pt.y, g))
  }

  /**
   * `r` is where a click at `pt` snaps: the last of the nearest snap
   * points if one is within one inch; failing that, the nearest grid node
   * when the grid is positive and the node is within one inch; failing
   * that, `pt` itself.
   */
  ghost predicate SnapsTo(pts: seq<Point>, pt: Point, grid: real, r: Point)
  {
    ((exists i :: 0 <= i < |pts| && Dist2(pts[i], pt) <= SnapIn * SnapIn) ==>
      exists i: nat :: IsLastNearest(pts, pt, i) && r == pts[i]) &&
    ((forall i :: 0 <= i < |pts| ==> Dist2(pts[i], pt) > SnapIn * SnapIn) ==>
      if grid > 0.0 && Dist2(GridNode(pt, grid), pt) <= SnapIn * SnapIn then r == GridNode(pt, grid) else r == pt)
  }

  /**
   * `snapDimPoint(pt)`: one pass keeps the best point so far, replacing
   * it on `d2 <= bestD2` (so later points win ties), then the grid node is
   * tried if no point was close enough.
   */
  method SnapDimPoint(pts: seq<Point>, pt: Point, grid: real) returns (r: Point)
    ensures SnapsTo(pts, pt, grid, r)
  {
    var best: Option<Point> := None;
    var bestD2 := SnapIn * SnapIn;
    ghost var bi := 0;
    var k := 0;
    while k < |pts|
      invariant k <= |pts|
      invariant best.None? ==> bestD2 == SnapIn * SnapIn && forall j :: 0 <= j < k ==> Dist2(pts[j], pt) > bestD2
      invariant best.Some? ==>
        bi < k && best.value == pts[bi] && bestD2 == Dist2(pts[bi], pt) <= SnapIn * SnapIn &&
        (forall j :: 0 <= j < k ==> bestD2 <= Dist2(pts[j], pt)) &&
        (forall j :: bi < j < k ==> bestD2 < Dist2(pts[j], pt))
    {
      var d2 := Dist2(pts[k], pt);
      if d2 <= bestD2 {
        bestD2 := d2;
        best := Some(pts[k]);
        bi := k;
      }
      k := k + 1;
    }
    ghost var fromPoints := best;
    var g := grid;
    if best.None? && g > 0.0 {
      var node := GridNode(pt, g);
      if Dist2(node, pt) <= bestD2 {
        best := Some(node);
      }
    }
    if fromPoints.Some? {
      assert IsLastNearest(pts, pt, bi);
    }
    if best.Some? {
      r := best.value;
    } else {
      r := pt;
    }
  }

  /** The line's run and rise in pixels, `x2px - x1px` and `y2px - y1px`. */
  function Delta(d: Dim, scale: real): (real, real)
  {
    (InchesToPixels(d.x2, scale) - InchesToPixels(d.x1, scale), InchesToPixels(d.y2, scale) - InchesToPixels(d.y1, scale))
  }

  /** The squared length of the line in pixels. */
  function Length2(d: Dim, scale: real): real
  {
    Delta(d, scale).0 * Delta(d, scale).0 + Delta(d, scale).1 * Delta(d, scale).1
  }

  /**
   * The normal of the line in pixels: the direction over
   * `Math.sqrt(dx*dx + dy*dy) || 1`, turned a quarter (`nx = -uy`,
   * `ny = ux`). `sqrt` stands for `Math.sqrt`.
   */
  function Normal(d: Dim, scale: real, sqrt: real -> real): (n: (real, real))
  {
    var (dx, dy) := Delta(d, scale);
    var len := sqrt(Length2(d, scale));
    var l := if len == 0.0 then 1.0 else len;
    (-(dy / l), dx / l)
  }

  /** The normal is perpendicular to the line, whatever `sqrt` returns. */
  lemma NormalPerpendicular(d: Dim, scale: real, sqrt: real -> real)
    ensures var n := Normal(d, scale, sqrt); n.0 * Delta(d, scale).0 + n.1 * Delta(d, scale).1 == 0.0
  {
    var (dx, dy) := Delta(d, scale);
    var len := sqrt(Length2(d, scale));
    var l := if len == 0.0 then 1.0 else len;
    assert -(dy / l) * dx + (dx / l) * dy == (-(dy * dx) + dx * dy) / l;
  }

  /** With an exact square root the normal of a line of positive length is a unit vector. */
  lemma NormalIsUnit(d: Dim, scale: real, sqrt: real -> real)
    requires Length2(d, scale) > 0.0 && sqrt(Length2(d, scale)) > 0.0
    requires sqrt(Length2(d, scale)) * sqrt(Length2(d, scale)) == Length2(d, scale)
    ensures var n := Normal(d, scale, sqrt); n.0 * n.0 + n.1 * n.1 == 1.0
  {
    var dx, dy := Delta(d, scale).0, Delta(d, scale).1;
    var l := sqrt(Length2(d, scale));
    var n := Normal(d, scale, sqrt);
    assert n.0 * l == -dy && n.1 * l == dx;
    SumOfSquares(n.0, n.1, l, dx, dy);
    CancelSquare(n.0 * n.0 + n.1 * n.1, 1.0, l);
  }

  lemma SumOfSquares(n0: real, n1: real, l: real, dx: real, dy: real)
    requires n0 * l == -dy && n1 * l == dx && l * l == dx * dx + dy * dy
    ensures (n0 * n0 + n1 * n1) * (l * l) == 1.0 * (l * l)
  {
    calc {
      (n0 * n0 + n1 * n1) * (l * l);
      (n0 * l) * (n0 * l) + (n1 * l) * (n1 * l);
      (-dy) * (-dy) + dx * dx;
      dy * dy + dx * dx;
      1.0 * (l * l);
    }
  }

  lemma Cancel(a: real, b: real, y: real)
    requires y != 0.0 && a * y == b * y
    ensures a == b
  {
    assert (a - b) * y == a * y - b * y;
  }

  lemma CancelSquare(a: real, b: real, l: real)
    requires l != 0.0 && a * (l * l) == b * (l * l)
    ensures a == b
  {
    assert (a * l) * l == a * (l * l) && (b * l) * l == b * (l * l);
    Cancel(a * l, b * l, l);
    Cancel(a, b, l);
  }

  /** What a dimension drag remembers from its pointer-down: the start in pixels and the unit normal. */
  datatype DimDrag = DimDrag(dimId: string, x1px: real, y1px: real, nx: real, ny: real)

  /** The drag record the pointer-down on a drawn dimension line creates. */
  function StartDimDrag(d: Dim, scale: real, sqrt: real -> real): (g: DimDrag)
    ensures g.dimId == d.id && g.x1px == InchesToPixels(d.x1, scale) && g.y1px == InchesToPixels(d.y1, scale)
    ensures g.nx * Delta(d, scale).0 + g.ny * Delta(d, scale).1 == 0.0
  {
    var n := Normal(d, scale, sqrt);
    NormalPerpendicular(d, scale, sqrt);
    DimDrag(d.id, InchesToPixels(d.x1, scale), InchesToPixels(d.y1, scale), n.0, n.1)
  }

  /** `MAX`: the furthest a dimension line may be dragged from its points (pixels). */
  const MaxOffset: real := 300.0

  /** The signed distance of (px, py) from the line's start along the normal. */
  function Projection(g: DimDrag, px: real, py: real): real
  {
    (px - g.x1px) * g.nx + (py - g.y1px) * g.ny
  }

  /** The `offsetPx` a drag to (px, py) gives the line: the projection, clamped to [-300, 300]. */
  function DragOffset(g: DimDrag, px: real, py: real): (off: real)
    ensures -MaxOffset <= off <= MaxOffset
    ensures -MaxOffset <= Projection(g, px, py) <= MaxOffset ==> off == Projection(g, px, py)
    ensures Projection(g, px, py) > MaxOffset ==> off == MaxOffset
    ensures Projection(g, px, py) < -MaxOffset ==> off == -MaxOffset
  {
    Clamp(Projection(g, px, py), -MaxOffset, MaxOffset)
  }

  /** Sliding the pointer parallel to the dimension line leaves the offset unchanged. */
  lemma OffsetIgnoresSliding(d: Dim, scale: real, sqrt: real -> real, px: real, py: real, s: real)
    ensures var g := StartDimDrag(d, scale, sqrt);
      DragOffset(g, px + s * Delta(d, scale).0, py + s * Delta(d, scale).1) == DragOffset(g, px, py)
  {
    var g := StartDimDrag(d, scale, sqrt);
    ProjectionShift(g, px, py, s, Delta(d, scale).0, Delta(d, scale).1);
  }

  lemma ProjectionShift(g: DimDrag, px: real, py: real, s: real, dx: real, dy: real)
    requires g.nx * dx + g.ny * dy == 0.0
    ensures Projection(g, px + s * dx, py + s * dy) == Projection(g, px, py)
  {
    assert s * dx * g.nx + s * dy * g.ny == s * (g.nx * dx + g.ny * dy);
  }

  /** `dims.findIndex(d => d.id === id)`. */
  function FindDim(dims: seq<Dim>, id: string): (r: Option<nat>)
    ensures r.None? <==> forall i :: 0 <= i < |dims| ==> dims[i].id != id
    ensures r.Some? ==>
      r.value < |dims| && dims[r.value].id == id && forall i :: 0 <= i < r.value ==> dims[i].id != id
  {
    if dims == [] then None
    else if dims[0].id == id then Some(0)
    else
      var r := FindDim(dims[1..], id);
      if r.None? then None else Some(r.value + 1)
  }
}
