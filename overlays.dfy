/**
 * Slab-photo overlays of a layout: the list of at most two overlays with
 * its selection index, the mask that shows an overlay only on the pieces
 * (minus their sink and faucet cut-outs), and the size and placement of
 * each overlay image. Everything is in pixels unless it says inches.
 */
module Overlays {
  import opened Wrappers
  import opened Geometry
  import opened Faucets
  import opened Sinks
  import opened Pieces

  /** An overlay. `opacity` is missing in overlays saved before it existed. */
  datatype Overlay = Overlay(
    id: string,
    name: string,
    dataURL: string,
    natW: real,
    natH: real,
    slabW: real,
    slabH: real,
    x: real,
    y: real,
    opacity: Option<real>,
    visible: bool)

  /** A layout holds at most this many overlays. */
  const MaxOverlays := 2

  // ----- The overlay list ----------------------------------------------

  /** `ovSel` is -1 (nothing selected) or the index of an overlay. */
  predicate ValidSelection(os: seq<Overlay>, sel: int)
  {
    -1 <= sel < |os|
  }

  /** The selection `ensureOverlaysOnLayout` gives a layout without one: the first overlay, if any. */
  function DefaultSelection(os: seq<Overlay>): (sel: int)
    ensures ValidSelection(os, sel)
    ensures sel == -1 <==> os == []
  {
    if |os| > 0 then 0 else -1
  }

  /**
   * The overlay `addOverlayFromDataURL` builds: a full 126 x 63 inch slab at
   * the origin, opaque and visible; a missing name becomes "Overlay".
   */
  function NewOverlay(id: string, name: string, dataURL: string, natW: real, natH: real): (o: Overlay)
    ensures o.slabW == 126.0 && o.slabH == 63.0 && o.x == 0.0 && o.y == 0.0
    ensures o.opacity == Some(1.0) && o.visible && o.id == id && o.dataURL == dataURL
    ensures o.name == (if name == "" then "Overlay" else name)
  {
    Overlay(id, if name == "" then "Overlay" else name, dataURL, natW, natH, 126.0, 63.0, 0.0, 0.0, Some(1.0), true)
  }

  /**
   * Adding an overlay: declined when the layout already has two; otherwise
   * it goes to the end of the list and becomes the selected one.
   */
  function AddOverlay(os: seq<Overlay>, sel: int, o: Overlay): (r: (seq<Overlay>, int))
    ensures |os| >= MaxOverlays ==> r == (os, sel)
    ensures |os| < MaxOverlays ==> r.0 == os + [o] && r.1 == |os| && r.0[r.1] == o
  {
    if |os| >= MaxOverlays then (os, sel) else (os + [o], |os|)
  }

  /** No sequence of additions takes a layout past two overlays, and the selection stays valid. */
  lemma AddOverlayKeepsLimit(os: seq<Overlay>, sel: int, o: Overlay)
    requires |os| <= MaxOverlays && ValidSelection(os, sel)
    ensures var r := AddOverlay(os, sel, o); |r.0| <= MaxOverlays && ValidSelection(r.0, r.1)
  {
  }

  /**
   * The row's delete button: `splice(idx, 1)`, then a selection past the
   * end is pulled back to the last overlay (-1 when none is left). A
   * selection before the end is kept as it is.
   */
  function DeleteOverlay(os: seq<Overlay>, sel: int, idx: nat): (r: (seq<Overlay>, int))
    requires idx < |os|
    ensures r.0 == os[..idx] + os[idx + 1..]
    ensures r.1 <= |r.0| - 1
    ensures sel < |r.0| ==> r.1 == sel
    ensures sel >= |r.0| ==> r.1 == |r.0| - 1
  {
    var rest := os[..idx] + os[idx + 1..];
    (rest, if sel >= |rest| then |rest| - 1 else sel)
  }

  /** Deleting an overlay keeps a valid selection valid. */
  lemma DeleteOverlayKeepsSelection(os: seq<Overlay>, sel: int, idx: nat)
    requires idx < |os| && ValidSelection(os, sel)
    ensures var r := DeleteOverlay(os, sel, idx); ValidSelection(r.0, r.1)
  {
  }

  /** `selectOverlay(i)`: an index into the list is selected, anything else selects nothing. */
  function SelectOverlay(os: seq<Overlay>, i: int): (sel: int)
    ensures ValidSelection(os, sel)
    ensures 0 <= i < |os| ==> sel == i
    ensures !(0 <= i < |os|) ==> sel == -1
  {
    if 0 <= i < |os| then i else -1
  }

  /** `currentOverlay()`: the selected overlay, or nothing for -1 or an index past the end. */
  function CurrentOverlay(os: seq<Overlay>, sel: int): (r: Option<Overlay>)
    ensures r.Some? <==> 0 <= sel < |os|
    ensures r.Some? ==> r.value == os[sel]
  {
    if 0 <= sel < |os| then Some(os[sel]) else None
  }

  /** Selecting an overlay and asking for the current one gives that overlay back. */
  lemma SelectThenCurrent(os: seq<Overlay>, i: int)
    ensures CurrentOverlay(os, SelectOverlay(os, i)) == if 0 <= i < |os| then Some(os[i]) else None
  {
  }

  // ----- The mask --------------------------------------------------------

  /**
   * JavaScript `a % m` on numbers: the remainder of the division truncated
   * toward zero, so it has the sign of `a`.
   */
  function JsRem(a: real, m: real): (r: real)
    requires m > 0.0
    ensures -m < r < m
    ensures a >= 0.0 ==> r >= 0.0
    ensures a <= 0.0 ==> r <= 0.0
  {
    var q := a / m;
    var t := if q >= 0.0 then q.Floor else -((-q).Floor);
    RemainderBound(a, m, t as real);
    a - m * t as real
  }

  /** `a - m * t` lies strictly within `m` of 0 when `t` is within 1 of `a / m`. */
  lemma RemainderBound(a: real, m: real, t: real)
    requires m > 0.0 && -1.0 < a / m - t < 1.0
    ensures -m < a - m * t < m
  {
    var d := a / m - t;
    assert a == m * (a / m);
    assert a - m * t == m * d;
    assert m * d - m == m * (d - 1.0);
    assert m * d + m == m * (d + 1.0);
  }

  /** `((rot % 360) + 360) % 360`: the piece rotation brought into [0, 360). */
  function RotNormalize(rot: real): real
  {
    JsRem(JsRem(rot, 360.0) + 360.0, 360.0)
  }

  /**
   * The normalised rotation is the Euclidean remainder by 360: it lies in
   * [0, 360), and differs from the rotation by whole turns.
   */
  lemma RotNormalizeIsRemainder(rot: real)
    ensures 0.0 <= RotNormalize(rot) < 360.0
    ensures RotNormalize(rot) == rot - 360.0 * (rot / 360.0).Floor as real
  {
    var a := JsRem(rot, 360.0);
    var q := rot / 360.0;
    if q >= 0.0 {
      assert a == rot - 360.0 * q.Floor as real;
      assert 0.0 <= a < 360.0;
      WholeTurns(a + 360.0, 1);
    } else {
      var t := -((-q).Floor);
      assert a == rot - 360.0 * t as real;
      assert -360.0 < a <= 0.0;
      if a == 0.0 {
        assert q == t as real;
        WholeTurns(360.0, 1);
      } else {
        assert q.Floor == t - 1;
        WholeTurns(a + 360.0, 0);
      }
    }
  }

  /** The remainder of `b` in [0, 720) by 360, when `b` is `k` whole turns past [0, 360). */
  lemma WholeTurns(b: real, k: int)
    requires 0 <= k <= 1 && 360.0 * k as real <= b < 360.0 * (k + 1) as real
    ensures JsRem(b, 360.0) == b - 360.0 * k as real
  {
    assert (b / 360.0).Floor == k;
  }

  /** The normalisation leaves a rotation already in [0, 360) alone. */
  lemma RotNormalizeInRange(rot: real)
    requires 0.0 <= rot < 360.0
    ensures RotNormalize(rot) == rot
  {
    RotNormalizeIsRemainder(rot);
    assert (rot / 360.0).Floor == 0;
  }

  /** A rotation about a point: SVG's `rotate(deg, cx, cy)`. */
  datatype Rotation = Rotation(deg: real, cx: real, cy: real)

  /** A piece's white area: `roundedRectPathCorners` with a radius per corner. */
  datatype Outline = Outline(x: real, y: real, w: real, h: real, rtl: real, rtr: real, rbr: real, rbl: real)

  /** What is cut out (drawn black) for a sink's bowl. */
  datatype Opening = Ellipse(rx: real, ry: real) | RectOpening(path: RectPath)

  datatype Circle = Circle(cx: real, cy: real, r: real)

  /** A sink's cut-outs, drawn after `translate(tx, ty) rotate(angle)` inside the piece's group. */
  datatype SinkCutout = SinkCutout(tx: real, ty: real, angle: real, opening: Opening, holes: seq<Circle>)

  /** One piece's group of the mask: an optional rotation, the outline, the sinks' cut-outs. */
  datatype PieceMask = PieceMask(rotation: Option<Rotation>, outline: Outline, cutouts: seq<SinkCutout>)

  /** The centre of the piece's bounding box, about which it is drawn turned: `x + BW/2`, `y + BH/2`. */
  function Centre(p: Piece, scale: real, t: Trig): (real, real)
  {
    var rs := PieceBox(CadLite1_2_25, p, t);
    (InchesToPixels(p.x, scale) + InchesToPixels(rs.w, scale) / 2.0,
     InchesToPixels(p.y, scale) + InchesToPixels(rs.h, scale) / 2.0)
  }

  /**
   * The piece's unturned rectangle, centred on the box's centre, with a
   * one-inch radius on each corner whose flag is set.
   */
  function PieceOutline(p: Piece, scale: real, t: Trig): (o: Outline)
    ensures o.w == InchesToPixels(p.w, scale) && o.h == InchesToPixels(p.h, scale)
    ensures o.x + o.w / 2.0 == Centre(p, scale, t).0 && o.y + o.h / 2.0 == Centre(p, scale, t).1
    ensures o.rtl == (if p.corners.tl then InchesToPixels(1.0, scale) else 0.0)
    ensures o.rtr == (if p.corners.tr then InchesToPixels(1.0, scale) else 0.0)
    ensures o.rbr == (if p.corners.br then InchesToPixels(1.0, scale) else 0.0)
    ensures o.rbl == (if p.corners.bl then InchesToPixels(1.0, scale) else 0.0)
  {
    var (cx, cy) := Centre(p, scale, t);
    var w0, h0 := InchesToPixels(p.w, scale), InchesToPixels(p.h, scale);
    var rIn := InchesToPixels(1.0, scale);
    Outline(cx - w0 / 2.0, cy - h0 / 2.0, w0, h0,
            if p.corners.tl then rIn else 0.0, if p.corners.tr then rIn else 0.0,
            if p.corners.br then rIn else 0.0, if p.corners.bl then rIn else 0.0)
  }

  /** An unturned piece's outline is exactly its rectangle on the canvas. */
  lemma UnturnedOutlineIsRectangle(p: Piece, scale: real, t: Trig)
    requires Exact(t) && p.rotation == 0.0 && p.w >= 0.0 && p.h >= 0.0
    ensures var o := PieceOutline(p, scale, t);
      o.x == InchesToPixels(p.x, scale) && o.y == InchesToPixels(p.y, scale)
  {
    RealSizeAxisAligned(p.w, p.h, t);
    assert PieceBox(CadLite1_2_25, p, t) == Box(p.w, p.h);
  }

  /** The sink's own angle inside the piece's group: its rotation, plus 90 degrees on a side edge. */
  function LocalAngle(s: Sink): real
  {
    s.rotation + (if Sideways(s.side) then 90.0 else 0.0)
  }

  /** The hole for faucet slot `idx`: `(idx - 4) * i2p(2)` across, `i2p(h/2) + i2p(2.5)` behind the centre. */
  function Hole(s: Sink, idx: real, scale: real): Circle
  {
    Circle((-4.0 + idx) * InchesToPixels(HoleSpacing, scale),
           -(InchesToPixels(s.h / 2.0, scale) + InchesToPixels(HoleBackset, scale)),
           InchesToPixels(HoleRadius, scale))
  }

  /** Each hole is the rack's hole centre for that slot, scaled to pixels. */
  lemma HoleIsRackHole(s: Sink, idx: real, scale: real)
    ensures Hole(s, idx, scale).cx == InchesToPixels(HoleCenter(idx, s.h).0, scale)
    ensures Hole(s, idx, scale).cy == InchesToPixels(HoleCenter(idx, s.h).1, scale)
    ensures Hole(s, idx, scale).r == InchesToPixels(0.75, scale)
  {
    assert (-4.0 + idx) * (2.0 * scale) == ((idx - 4.0) * 2.0) * scale;
    assert -(s.h / 2.0 * scale + 2.5 * scale) == (-(s.h / 2.0 + 2.5)) * scale;
  }

  /** One black circle per enabled faucet slot, in the order of the list. */
  function Holes(s: Sink, scale: real): (cs: seq<Circle>)
    ensures |cs| == |s.faucets|
    ensures forall k :: 0 <= k < |cs| ==> cs[k] == Hole(s, s.faucets[k], scale)
  {
    seq(|s.faucets|, k requires 0 <= k < |s.faucets| => Hole(s, s.faucets[k], scale))
  }

  /** The bowl: an ellipse for an oval sink, otherwise its rounded rectangle with radius `min(cornerR, 4)`. */
  function SinkOpening(s: Sink, scale: real): (o: Opening)
    ensures s.shape == Oval <==> o.Ellipse?
    ensures o.Ellipse? ==> o.rx == InchesToPixels(s.w / 2.0, scale) && o.ry == InchesToPixels(s.h / 2.0, scale)
  {
    if s.shape == Oval then Ellipse(InchesToPixels(s.w / 2.0, scale), InchesToPixels(s.h / 2.0, scale))
    else
      var w2, h2 := InchesToPixels(s.w / 2.0, scale), InchesToPixels(s.h / 2.0, scale);
      RectOpening(RoundedRectPath(-w2, -h2, w2 * 2.0, h2 * 2.0, InchesToPixels(Min(s.cornerR, 4.0), scale)))
  }

  /**
   * A sink's cut-outs: moved to the sink's centre from `sinkPoseOnPiece`,
   * measured from the outline's top-left corner, and turned by its own
   * angle. The on-screen drawing of the sink uses the same placement.
   */
  function Cutout(p: Piece, s: Sink, scale: real, t: Trig): (c: SinkCutout)
    ensures |c.holes| == |s.faucets| && c.angle == LocalAngle(s)
  {
    var o := PieceOutline(p, scale, t);
    var pose := SinkPose(p.w, p.h, p.rotation, s);
    SinkCutout(o.x + InchesToPixels(pose.cx, scale), o.y + InchesToPixels(pose.cy, scale),
               LocalAngle(s), SinkOpening(s, scale), Holes(s, scale))
  }

  /** A piece's group: turned about its centre only when its normalised rotation is not 0. */
  function PieceGroup(p: Piece, scale: real, t: Trig): (g: PieceMask)
    ensures g.outline == PieceOutline(p, scale, t)
    ensures g.rotation.Some? <==> RotNormalize(p.rotation) != 0.0
    ensures g.rotation.Some? ==> g.rotation.value == Rotation(RotNormalize(p.rotation), Centre(p, scale, t).0, Centre(p, scale, t).1)
    ensures |g.cutouts| == |p.sinks|
    ensures forall k :: 0 <= k < |p.sinks| ==> g.cutouts[k] == Cutout(p, p.sinks[k], scale, t)
  {
    var rot := RotNormalize(p.rotation);
    var (cx, cy) := Centre(p, scale, t);
    PieceMask(if rot != 0.0 then Some(Rotation(rot, cx, cy)) else None,
              PieceOutline(p, scale, t),
              seq(|p.sinks|, k requires 0 <= k < |p.sinks| => Cutout(p, p.sinks[k], scale, t)))
  }

  /**
   * `buildOverlayMaskSubtractingCutouts()`: one group per piece, in list
   * order, each with one white outline, one black opening per sink and one
   * black circle per enabled faucet slot.
   */
  function Mask(pieces: seq<Piece>, scale: real, t: Trig): (m: seq<PieceMask>)
    ensures |m| == |pieces|
    ensures forall i :: 0 <= i < |m| ==> m[i] == PieceGroup(pieces[i], scale, t)
  {
    seq(|pieces|, i requires 0 <= i < |pieces| => PieceGroup(pieces[i], scale, t))
  }

  /** The number of black circles the mask holds: one per enabled slot of every sink. */
  function HoleCount(sinks: seq<Sink>): nat
  {
    if sinks == [] then 0 else |sinks[0].faucets| + HoleCount(sinks[1..])
  }

  function CircleCount(cutouts: seq<SinkCutout>): nat
  {
    if cutouts == [] then 0 else |cutouts[0].holes| + CircleCount(cutouts[1..])
  }

  /** Each piece's group holds exactly one hidden circle per faucet hole of its sinks. */
  lemma {:induction false} MaskCircles(p: Piece, scale: real, t: Trig)
    ensures CircleCount(PieceGroup(p, scale, t).cutouts) == HoleCount(p.sinks)
  {
    CutoutCircles(p, p.sinks, PieceGroup(p, scale, t).cutouts, scale, t);
  }

  lemma {:induction false} CutoutCircles(p: Piece, sinks: seq<Sink>, cs: seq<SinkCutout>, scale: real, t: Trig)
    requires |cs| == |sinks| && forall k :: 0 <= k < |sinks| ==> cs[k] == Cutout(p, sinks[k], scale, t)
    ensures CircleCount(cs) == HoleCount(sinks)
  {
    if sinks != [] {
      CutoutCircles(p, sinks[1..], cs[1..], scale, t);
    }
  }

  /**
   * A sink is drawn turned by the piece's group and then by its own
   * angle; together that is the pose's angle, up to whole turns.
   */
  lemma MaskAngleIsPoseAngle(p: Piece, s: Sink, scale: real, t: Trig)
    ensures var g := PieceGroup(p, scale, t);
      var total := (if g.rotation.Some? then g.rotation.value.deg else 0.0) + Cutout(p, s, scale, t).angle;
      var pose := SinkPose(p.w, p.h, p.rotation, s);
      total == pose.angle - 360.0 * (p.rotation / 360.0).Floor as real
  {
    RotNormalizeIsRemainder(p.rotation);
  }

  // ----- Drawing the overlays -------------------------------------------

  /** An overlay image and its backdrop rectangle, in whole pixels. */
  datatype Image = Image(id: string, href: string, x: int, y: int, w: int, h: int, opacity: real)

  /** Only a visible overlay with an image is drawn. */
  predicate Shown(o: Overlay)
  {
    o.visible && o.dataURL != ""
  }

  /** `v || d` on a number (NaN does not occur in the model). */
  function NumberOr(v: real, d: real): real
  {
    if v == 0.0 then d else v
  }

  /**
   * The image of an overlay: the slab size (1 inch if 0) and the origin in
   * pixels, rounded, never narrower or lower than one pixel; the opacity
   * defaults to 1.
   */
  function ImageOf(o: Overlay, scale: real): (im: Image)
    ensures im.w >= 1 && im.h >= 1
    ensures im.x == Round(o.x * scale) && im.y == Round(o.y * scale)
    ensures o.slabW != 0.0 && Round(o.slabW * scale) >= 1 ==> im.w == Round(o.slabW * scale)
    ensures o.opacity.Some? ==> im.opacity == o.opacity.value
    ensures o.opacity.None? ==> im.opacity == 1.0
  {
    var w := Round(NumberOr(o.slabW, 1.0) * scale);
    var h := Round(NumberOr(o.slabH, 1.0) * scale);
    Image(o.id, o.dataURL, Round(NumberOr(o.x, 0.0) * scale), Round(NumberOr(o.y, 0.0) * scale),
          if w >= 1 then w else 1, if h >= 1 then h else 1,
          if o.opacity.Some? then o.opacity.value else 1.0)
  }

  /** The images of the shown overlays, in list order. */
  function Images(os: seq<Overlay>, scale: real): (ims: seq<Image>)
    ensures |ims| <= |os|
    ensures |ims| == |os| <==> forall k :: 0 <= k < |os| ==> Shown(os[k])
  {
    if os == [] then []
    else
      var rest := Images(os[1..], scale);
      assert forall k :: 1 <= k < |os| ==> os[k] == os[1..][k - 1];
      if Shown(os[0]) then [ImageOf(os[0], scale)] + rest else rest
  }

  /** Every shown overlay's image is drawn, and nothing else is. */
  lemma {:induction false} ImagesMembers(os: seq<Overlay>, scale: real)
    ensures forall o :: o in os && Shown(o) ==> ImageOf(o, scale) in Images(os, scale)
    ensures forall im :: im in Images(os, scale) ==> exists o :: o in os && Shown(o) && im == ImageOf(o, scale)
  {
    if os != [] {
      ImagesMembers(os[1..], scale);
      assert forall o :: o in os <==> o == os[0] || o in os[1..];
    }
  }

  /** Drawing two runs of overlays draws the first run's images, then the second's. */
  lemma {:induction false} ImagesAppend(a: seq<Overlay>, b: seq<Overlay>, scale: real)
    ensures Images(a + b, scale) == Images(a, scale) + Images(b, scale)
  {
    if a == [] {
      assert a + b == b;
    } else {
      var ab := a + b;
      assert ab[0] == a[0] && ab[1..] == a[1..] + b;
      ImagesAppend(a[1..], b, scale);
      var head := if Shown(a[0]) then [ImageOf(a[0], scale)] else [];
      assert Images(ab, scale) == head + Images(a[1..] + b, scale);
      assert Images(a, scale) == head + Images(a[1..], scale);
    }
  }

  /** One overlay: its image if it is shown, nothing otherwise. */
  lemma ImagesOne(o: Overlay, scale: real)
    ensures Images([o], scale) == (if Shown(o) then [ImageOf(o, scale)] else [])
  {
    assert [o][1..] == [];
  }

  /** When every overlay is shown, image `k` is overlay `k`'s. */
  lemma {:induction false} ImagesAllShown(os: seq<Overlay>, scale: real)
    requires forall k :: 0 <= k < |os| ==> Shown(os[k])
    ensures |Images(os, scale)| == |os|
    ensures forall k :: 0 <= k < |os| ==> Images(os, scale)[k] == ImageOf(os[k], scale)
  {
    if os != [] {
      ImagesAllShown(os[1..], scale);
    }
  }

  /** What `drawOverlays()` puts on the canvas: the mask, if any, and the images. */
  datatype OverlayLayer = OverlayLayer(mask: Option<seq<PieceMask>>, images: seq<Image>)

  /**
   * `drawOverlays()`: nothing for a layout without overlays; otherwise the
   * shown overlays' images, masked to the pieces when clipping is on.
   */
  function DrawOverlays(os: seq<Overlay>, overlayClip: bool, pieces: seq<Piece>, scale: real, t: Trig): (r: OverlayLayer)
    ensures r.mask.Some? <==> overlayClip && os != []
    ensures r.mask.Some? ==> r.mask.value == Mask(pieces, scale, t)
    ensures r.images == Images(os, scale)
    ensures os == [] ==> r.images == []
  {
    if os == [] then OverlayLayer(None, [])
    else OverlayLayer(if overlayClip then Some(Mask(pieces, scale, t)) else None, Images(os, scale))
  }
}
