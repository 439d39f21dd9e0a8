/**
 * Countertop pieces: the piece record, its rotated bounding box and the
 * canvas clamp for each release, and the pieces that "Add piece" and
 * "Duplicate" create.
 */
module Pieces {
  import opened Wrappers
  import opened Geometry
  import opened Sinks

  /** The three releases of the application, oldest first. */
  datatype Version = CadLite | CadLite1_1_28 | CadLite1_2_25

  /** The sink card that goes with a release; the oldest one has none. */
  function SinkRelease(v: Version): Release
  {
    if v == CadLite1_1_28 then V1_1_28 else V1_2_25
  }

  /** `rTL`, `rTR`, `rBL`, `rBR`: which corners are rounded (by one inch). */
  datatype Corners = Corners(tl: bool, tr: bool, bl: bool, br: bool)

  const SquareCorners := Corners(false, false, false, false)

  /**
   * A piece: its unrotated size `w` x `h`, the top-left corner `x`, `y` of
   * its rotated bounding box, the rotation in degrees, its stacking
   * `layer` and its sinks. (`edgeProfiles` only affect drawing.)
   */
  datatype Piece = Piece(
    id: string,
    name: string,
    w: real,
    h: real,
    x: real,
    y: real,
    rotation: real,
    color: string,
    layer: real,
    corners: Corners,
    sinks: seq<Sink>)

  /** `realSize(p)`: the rotation is clamped in `cad-lite.js` and folded afterwards. */
  function PieceBox(v: Version, p: Piece, t: Trig): Box
  {
    if v == CadLite then RealSizeLegacy(p.w, p.h, p.rotation, t) else RealSize(p.w, p.h, p.rotation, t)
  }

  /** One axis of `clampToCanvas`, with the `clamp` of the release. */
  function CanvasAxis(v: Version, value: real, extent: real, size: real): real
  {
    if v == CadLite then ClampToCanvasAxisLegacy(value, extent, size) else ClampToCanvasAxis(value, extent, size)
  }

  /**
   * `clampToCanvas(p)`: the bounding box is pushed back inside the
   * `cw` x `ch` canvas. From v1.1.28 on the piece never goes above or left
   * of the origin; in `cad-lite.js` it never passes the far edges. When
   * the box fits, both keep it wholly inside.
   */
  function ClampToCanvas(v: Version, p: Piece, cw: real, ch: real, t: Trig): (r: Piece)
    ensures r == p.(x := r.x, y := r.y)
    ensures var b := PieceBox(v, p, t);
      (v != CadLite ==> r.x >= 0.0 && r.y >= 0.0) &&
      (v == CadLite ==> r.x + b.w <= cw && r.y + b.h <= ch) &&
      (b.w <= cw ==> 0.0 <= r.x <= cw - b.w) &&
      (b.h <= ch ==> 0.0 <= r.y <= ch - b.h) &&
      (0.0 <= p.x && p.x + b.w <= cw ==> r.x == p.x) &&
      (0.0 <= p.y && p.y + b.h <= ch ==> r.y == p.y)
  {
    var b := PieceBox(v, p, t);
    p.(x := CanvasAxis(v, p.x, cw, b.w), y := CanvasAxis(v, p.y, ch, b.h))
  }

  /** Clamping a clamped piece changes nothing. */
  lemma ClampToCanvasIdempotent(v: Version, p: Piece, cw: real, ch: real, t: Trig)
    ensures ClampToCanvas(v, ClampToCanvas(v, p, cw, ch, t), cw, ch, t) == ClampToCanvas(v, p, cw, ch, t)
  {
    var q := ClampToCanvas(v, p, cw, ch, t);
    assert PieceBox(v, q, t) == PieceBox(v, p, t);
  }

  /** In `cad-lite.js` a piece wider than the canvas is clamped to the left of the origin. */
  lemma OversizedLegacyGoesNegative(p: Piece, cw: real, ch: real, t: Trig)
    requires PieceBox(CadLite, p, t).w > cw
    ensures ClampToCanvas(CadLite, p, cw, ch, t).x == cw - PieceBox(CadLite, p, t).w < 0.0
  {
  }

  /** The largest layer, or `init` if that is larger: `Math.max(init, ...layers)`. */
  function MaxLayer(pieces: seq<Piece>, init: real): (m: real)
    ensures m >= init && forall p :: p in pieces ==> p.layer <= m
    ensures m == init || exists p :: p in pieces && p.layer == m
  {
    if pieces == [] then init
    else
      var rest := MaxLayer(pieces[1..], init);
      assert forall p :: p in pieces[1..] ==> p in pieces;
      if pieces[0].layer >= rest then pieces[0].layer else rest
  }

  /**
   * `Math.max(0, ...pieces.map(x => x.layer || 0)) + 1`: a layer above
   * every piece, one above the present top (or 1 on an empty canvas).
   */
  function TopLayer(pieces: seq<Piece>): (top: real)
    ensures top >= 1.0 && forall p :: p in pieces ==> p.layer < top
    ensures top == 1.0 || exists p :: p in pieces && p.layer == top - 1.0
  {
    MaxLayer(pieces, 0.0) + 1.0
  }

  /** The decimal digits of `n`, as `${n}` writes them. */
  function NumberText(n: nat): string
  {
    var d := ['0', '1', '2', '3', '4', '5', '6', '7', '8', '9'][n % 10];
    if n < 10 then [d] else NumberText(n / 10) + [d]
  }

  /**
   * The piece "Add piece" creates: `Piece <n+1>`, 24 x 12 inches at the
   * origin, unrotated, white, square-cornered and above every existing
   * piece, then clamped into the canvas.
   */
  function NewPiece(v: Version, pieces: seq<Piece>, id: string, cw: real, ch: real, t: Trig): (p: Piece)
    ensures p.id == id && p.w == 24.0 && p.h == 12.0 && p.rotation == 0.0 && p.sinks == []
    ensures p.layer == TopLayer(pieces) && forall q :: q in pieces ==> q.layer < p.layer
    ensures p.name == "Piece " + NumberText(|pieces| + 1)
    ensures p.color == "#ffffff" && !p.corners.tl && !p.corners.tr && !p.corners.br && !p.corners.bl
  {
    var p := Piece(id, "Piece " + NumberText(|pieces| + 1), 24.0, 12.0, 0.0, 0.0, 0.0, "#ffffff",
                   TopLayer(pieces), SquareCorners, []);
    ClampToCanvas(v, p, cw, ch, t)
  }

  /** A new piece lands at the origin whenever it fits the canvas. */
  lemma NewPieceAtOrigin(v: Version, pieces: seq<Piece>, id: string, cw: real, ch: real, t: Trig)
    requires Exact(t) && cw >= 24.0 && ch >= 12.0
    ensures NewPiece(v, pieces, id, cw, ch, t).x == 0.0 && NewPiece(v, pieces, id, cw, ch, t).y == 0.0
  {
    var p := Piece(id, "Piece " + NumberText(|pieces| + 1), 24.0, 12.0, 0.0, 0.0, 0.0, "#ffffff",
                   TopLayer(pieces), SquareCorners, []);
    RealSizeAxisAligned(24.0, 12.0, t);
    assert PieceBox(v, p, t) == Box(24.0, 12.0);
  }

  /** The `clamp` of the release: `ClampLegacy` in `cad-lite.js`, `Clamp` afterwards. */
  function VersionClamp(v: Version, n: real, lo: real, hi: real): (r: real)
    ensures lo <= hi ==> r == Clamp(n, lo, hi)
    ensures v != CadLite ==> r == Clamp(n, lo, hi)
  {
    if v == CadLite then ClampLegacy(n, lo, hi) else Clamp(n, lo, hi)
  }

  /**
   * `duplicatePiece(p)`: a copy of every field of `p` but the id, the
   * name (with " Copy"), the layer (above every piece) and the position,
   * which is one grid step down and right, clamped into the canvas with
   * `clamp` (not `clampToCanvas`, though the two agree). No button calls
   * this function; the Duplicate buttons build their copy with `CopyPiece`.
   */
  function DuplicatePiece(v: Version, p: Piece, pieces: seq<Piece>, id: string, grid: real, cw: real, ch: real, t: Trig): (d: Piece)
    ensures d == p.(id := id, name := p.name + " Copy", layer := d.layer, x := d.x, y := d.y)
    ensures d.layer == TopLayer(pieces) && forall q :: q in pieces ==> q.layer < d.layer
    ensures d == ClampToCanvas(v, p.(id := id, name := p.name + " Copy", layer := TopLayer(pieces),
                                     x := p.x + grid, y := p.y + grid), cw, ch, t)
  {
    var b := PieceBox(v, p, t);
    p.(id := id, name := p.name + " Copy", layer := TopLayer(pieces),
       x := VersionClamp(v, p.x + grid, 0.0, cw - b.w), y := VersionClamp(v, p.y + grid, 0.0, ch - b.h))
  }

  /**
   * The copy the Duplicate buttons of the piece list and the inspector
   * make: a deep copy of `p` with a new id and " Copy" after the name
   * ("Piece" for an empty one), moved one grid step down and right,
   * snapped to the grid and clamped into the canvas. It keeps the layer
   * of `p`, so the copy and the original share a layer.
   */
  function CopyPiece(v: Version, p: Piece, id: string, grid: real, cw: real, ch: real, t: Trig): (d: Piece)
    requires grid != 0.0
    ensures d == p.(id := id, name := (if p.name == "" then "Piece" else p.name) + " Copy", x := d.x, y := d.y)
    ensures var b := PieceBox(v, p, t);
      var sx := Snap(p.x + grid, grid);
      var sy := Snap(p.y + grid, grid);
      (v != CadLite ==> d.x >= 0.0 && d.y >= 0.0) &&
      (b.w <= cw ==> 0.0 <= d.x <= cw - b.w) &&
      (b.h <= ch ==> 0.0 <= d.y <= ch - b.h) &&
      (0.0 <= sx <= cw - b.w ==> d.x == sx && OnGrid(d.x, grid)) &&
      (0.0 <= sy <= ch - b.h ==> d.y == sy && OnGrid(d.y, grid))
  {
    var b := PieceBox(v, p, t);
    p.(id := id, name := (if p.name == "" then "Piece" else p.name) + " Copy",
       x := VersionClamp(v, Snap(p.x + grid, grid), 0.0, cw - b.w),
       y := VersionClamp(v, Snap(p.y + grid, grid), 0.0, ch - b.h))
  }
}
