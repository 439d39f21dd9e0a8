/**
 * The sink placement engine: a sink's record, where `sinkPoseOnPiece`
 * puts it on its piece, the sink catalogue and `applyModelToSink`, the
 * editor's input coercions, and the Sinks card's list of a piece's sinks.
 *
 * Three copies of the card exist: the one inside v1.2.25, the one inside
 * v1.1.28 (which differs in the rotation input's range), and the
 * standalone module `cad-lite-sinks.js` (its own catalogue, defaults and
 * coercions); `Release` says which one an operation follows.
 */
module Sinks {
  import opened Wrappers
  import opened Geometry
  import opened Faucets

  /** `SINK_STANDARD_SETBACK` (inches). */
  const StandardSetback: real := 3.125
  /** `MAX_SINKS_PER_PIECE`. */
  const MaxSinksPerPiece := 4

  /**
   * Which sinks code runs: the app's own card of v1.2.25 or v1.1.28, or the
   * standalone module's card with the catalogue it was given (callers may
   * override `DEFAULT_SINK_MODELS`).
   */
  datatype Release = V1_2_25 | V1_1_28 | SinksModule(models: seq<SinkModel>)

  /** The piece edge a sink is referenced to. */
  datatype Side = Front | Back | Left | Right
  datatype Kind = ModelSink | CustomSink
  datatype Shape = Rect | Oval

  /**
   * A sink, in inches and degrees. `setback` is optional because the pose
   * falls back on the standard setback when it is missing (`??`).
   */
  datatype Sink = Sink(
    id: string,
    kind: Kind,
    modelId: Option<string>,
    shape: Shape,
    w: real,
    h: real,
    cornerR: real,
    side: Side,
    centerline: real,
    setback: Option<real>,
    faucets: seq<real>,
    rotation: real)

  /** A catalogue entry; `cornerR` may be missing, and then counts as 0. */
  datatype SinkModel = SinkModel(id: string, shape: Shape, w: real, h: real, cornerR: Option<real>)

  /** `SINK_MODELS` of v1.1.28 and v1.2.25. */
  const AppModels: seq<SinkModel> := [
    SinkModel("k3218-single", Rect, 31.0, 17.0, Some(4.0)),
    SinkModel("oval-1714", Oval, 17.0, 14.0, Some(0.0)),
    SinkModel("rect-1813", Rect, 18.0, 13.0, Some(0.25))]

  /** `DEFAULT_SINK_MODELS` of the standalone module. */
  const ModuleModels: seq<SinkModel> := [
    SinkModel("k3218-single", Rect, 21.0, 16.0, Some(0.5)),
    SinkModel("k3218-50-50", Rect, 32.0, 18.0, Some(0.5)),
    SinkModel("k3040-60-40", Rect, 32.0, 18.0, Some(0.5)),
    SinkModel("oval-1714", Oval, 17.0, 14.0, Some(0.0)),
    SinkModel("rect-1813", Rect, 18.0, 13.0, Some(0.25))]

  /** The catalogue the card offers. */
  function Models(rel: Release): (ms: seq<SinkModel>)
    ensures !rel.SinksModule? ==> ms == AppModels
    ensures rel.SinksModule? ==> ms == rel.models
  {
    if rel.SinksModule? then rel.models else AppModels
  }

  /** `models.find(m => m.id === id)`: the first entry with that id. */
  function FindModel(models: seq<SinkModel>, id: Option<string>): (r: Option<SinkModel>)
    ensures r.Some? <==> exists k :: 0 <= k < |models| && Some(models[k].id) == id
    ensures r.Some? ==> r.value in models && Some(r.value.id) == id
    ensures r.Some? ==>
      exists k :: 0 <= k < |models| && models[k] == r.value && forall j :: 0 <= j < k ==> Some(models[j].id) != id
  {
    if models == [] then None
    else if Some(models[0].id) == id then Some(models[0])
    else
      var r := FindModel(models[1..], id);
      assert forall k :: 1 <= k < |models| ==> models[k] == models[1..][k - 1];
      r
  }

  // ----- Placement -----------------------------------------------------

  /** `sink.setback ?? SINK_STANDARD_SETBACK`: only a missing setback is replaced (0 stays 0). */
  function Setback(s: Sink): (r: real)
    ensures s.setback.Some? ==> r == s.setback.value
    ensures s.setback.None? ==> r == StandardSetback
  {
    if s.setback.Some? then s.setback.value else StandardSetback
  }

  datatype Frame = Frame(x: real, y: real, w: real, h: real)

  /** The sink's centre and angle in piece coordinates, and its unturned rectangle. */
  datatype Pose = Pose(cx: real, cy: real, angle: real, rect: Frame)

  /** Whether the sink sits on a side edge, and so is turned a quarter turn. */
  predicate Sideways(side: Side) { side == Left || side == Right }

  /** The coordinate along the reference edge: x for front/back, y for left/right. */
  function Along(p: Pose, side: Side): real
  {
    if Sideways(side) then p.cy else p.cx
  }

  /**
   * The distance from the reference edge of a `pieceW` x `pieceH` piece to
   * the nearest edge of the sink, whose depth `h` runs across that edge.
   */
  function Clearance(p: Pose, side: Side, h: real, pieceW: real, pieceH: real): real
  {
    match side
    case Front => p.cy - h / 2.0
    case Back => pieceH - (p.cy + h / 2.0)
    case Left => p.cx - h / 2.0
    case Right => pieceW - (p.cx + h / 2.0)
  }

  /**
   * `sinkPoseOnPiece(piece, sink)` of a `pieceW` x `pieceH` piece turned by
   * `pieceRotation` degrees. The centre lies on the centreline, measured
   * along the reference edge from the left (front/back) or top (left/right)
   * border; the sink's near edge is `setback` from the reference edge; the
   * angle adds the sink's own rotation and, on a side edge, 90 degrees.
   * The three copies of the function differ only in where the piece's size
   * is read from (`w`/`h` in the app, `width`/`height` in the module).
   */
  function SinkPose(pieceW: real, pieceH: real, pieceRotation: real, s: Sink): (p: Pose)
    ensures Along(p, s.side) == s.centerline
    ensures Clearance(p, s.side, s.h, pieceW, pieceH) == Setback(s)
    ensures p.angle == pieceRotation + s.rotation + (if Sideways(s.side) then 90.0 else 0.0)
    ensures p.rect == Frame(p.cx - s.w / 2.0, p.cy - s.h / 2.0, s.w, s.h)
  {
    var setback := Setback(s);
    var angle := pieceRotation + s.rotation;
    var (cx, cy, angle) :=
      match s.side
      case Front => (s.centerline, setback + s.h / 2.0, angle)
      case Back => (s.centerline, pieceH - (setback + s.h / 2.0), angle)
      case Left => (setback + s.h / 2.0, s.centerline, angle + 90.0)
      case Right => (pieceW - (setback + s.h / 2.0), s.centerline, angle + 90.0);
    Pose(cx, cy, angle, Frame(cx - s.w / 2.0, cy - s.h / 2.0, s.w, s.h))
  }

  /** The contract of `SinkPose` determines the pose completely. */
  lemma PoseDetermined(pieceW: real, pieceH: real, pieceRotation: real, s: Sink, p: Pose)
    requires Along(p, s.side) == s.centerline
    requires Clearance(p, s.side, s.h, pieceW, pieceH) == Setback(s)
    requires p.angle == pieceRotation + s.rotation + (if Sideways(s.side) then 90.0 else 0.0)
    requires p.rect == Frame(p.cx - s.w / 2.0, p.cy - s.h / 2.0, s.w, s.h)
    ensures p == SinkPose(pieceW, pieceH, pieceRotation, s)
  {
  }

  /**
   * Moving a sink from the front edge to the back edge mirrors it across
   * the piece's middle; likewise from the left edge to the right edge.
   */
  lemma OppositeEdgesMirror(pieceW: real, pieceH: real, pieceRotation: real, s: Sink)
    ensures SinkPose(pieceW, pieceH, pieceRotation, s.(side := Back)).cy ==
            pieceH - SinkPose(pieceW, pieceH, pieceRotation, s.(side := Front)).cy
    ensures SinkPose(pieceW, pieceH, pieceRotation, s.(side := Right)).cx ==
            pieceW - SinkPose(pieceW, pieceH, pieceRotation, s.(side := Left)).cx
    ensures SinkPose(pieceW, pieceH, pieceRotation, s.(side := Back)).cx ==
            SinkPose(pieceW, pieceH, pieceRotation, s.(side := Front)).cx
  {
  }

  /** Turning the piece turns every sink on it by the same angle and moves none of them. */
  lemma PoseFollowsPieceRotation(pieceW: real, pieceH: real, r1: real, r2: real, s: Sink)
    ensures var p1 := SinkPose(pieceW, pieceH, r1, s);
            var p2 := SinkPose(pieceW, pieceH, r2, s);
            p2.cx == p1.cx && p2.cy == p1.cy && p2.rect == p1.rect && p2.angle - p1.angle == r2 - r1
  {
  }

  // ----- Rounded rectangles ---------------------------------------------

  /** What `roundedRectPath`/`roundedRectPathSimple` draws: a plain rectangle, or one with corner radius `r`. */
  datatype RectPath = Plain(x: real, y: real, w: real, h: real) | Rounded(x: real, y: real, w: real, h: real, r: real)

  /**
   * A radius of 0 or less gives the plain rectangle, any other is cut down
   * to `min(r, w/2, h/2)` so that opposite corners never overlap.
   */
  function RoundedRectPath(x: real, y: real, w: real, h: real, r: real): (p: RectPath)
    ensures r <= 0.0 <==> p.Plain?
    ensures p.x == x && p.y == y && p.w == w && p.h == h
    ensures p.Rounded? ==> p.r <= r && p.r <= w / 2.0 && p.r <= h / 2.0
    ensures p.Rounded? ==> p.r == r || p.r == w / 2.0 || p.r == h / 2.0
    ensures r > 0.0 && r <= w / 2.0 && r <= h / 2.0 ==> p == Rounded(x, y, w, h, r)
  {
    if r <= 0.0 then Plain(x, y, w, h) else Rounded(x, y, w, h, Min(Min(r, w / 2.0), h / 2.0))
  }

  // ----- Catalogue -------------------------------------------------------

  /**
   * `createDefaultSink()`: the first catalogue model. The app's cards put
   * it on the back edge at centreline 20 with the middle faucet hole; the
   * module's card puts it on the front edge at centreline 0 without holes.
   */
  function DefaultSink(rel: Release, id: string): (s: Sink)
    requires Models(rel) != []
    ensures var m := Models(rel)[0];
      s.kind == ModelSink && s.modelId == Some(m.id) && s.shape == m.shape && s.w == m.w && s.h == m.h
    ensures s.setback == Some(StandardSetback) && s.rotation == 0.0 && s.id == id
    ensures rel.SinksModule? ==> s.side == Front && s.centerline == 0.0 && s.faucets == []
    ensures !rel.SinksModule? ==> s.side == Back && s.centerline == 20.0 && s.faucets == [4.0]
    ensures Increasing(s.faucets) && forall y :: y in s.faucets ==> IsSlot(y)
  {
    var m := Models(rel)[0];
    var cornerR := if m.cornerR.Some? then m.cornerR.value else 0.0;
    if rel.SinksModule? then
      Sink(id, ModelSink, Some(m.id), m.shape, m.w, m.h, cornerR, Front, 0.0, Some(StandardSetback), [], 0.0)
    else
      Sink(id, ModelSink, Some(m.id), m.shape, m.w, m.h, cornerR, Back, 20.0, Some(StandardSetback), [4.0], 0.0)
  }

  /**
   * `applyModelToSink(sink, model)`: nothing without a model; otherwise the
   * model's id, shape and size, and its corner radius (0 when missing)
   * clamped to [0, 4]. Nothing else changes.
   */
  function ApplyModel(s: Sink, model: Option<SinkModel>): (r: Sink)
    ensures model.None? ==> r == s
    ensures model.Some? ==> r == s.(modelId := Some(model.value.id), shape := model.value.shape,
                                    w := model.value.w, h := model.value.h, cornerR := r.cornerR)
    ensures model.Some? ==> 0.0 <= r.cornerR <= 4.0
    ensures model.Some? && model.value.cornerR.Some? && 0.0 <= model.value.cornerR.value <= 4.0 ==>
      r.cornerR == model.value.cornerR.value
  {
    if model.None? then s
    else
      var m := model.value;
      s.(modelId := Some(m.id), shape := m.shape, w := m.w, h := m.h,
         cornerR := Clamp(if m.cornerR.Some? then m.cornerR.value else 0.0, 0.0, 4.0))
  }

  /** Applying a model twice is applying it once. */
  lemma ApplyModelIdempotent(s: Sink, model: Option<SinkModel>)
    ensures ApplyModel(ApplyModel(s, model), model) == ApplyModel(s, model)
  {
  }

  // ----- Editor inputs ---------------------------------------------------

  /**
   * The number an input's text gives: `Number(text) || 0` in `round3` and
   * `parseFloat` with NaN mapped to 0 in the module's `toNum`. `None` is
   * text that is not a number (a number input's empty value).
   */
  function NumberOr0(v: Option<real>): (r: real)
    ensures v.None? ==> r == 0.0
    ensures v.Some? ==> r == v.value
  {
    if v.Some? then v.value else 0.0
  }

  /** A length typed into the custom sink row: `clamp(round3(v), 0, 999)`, or `toNum(v)` in the module. */
  function LengthInput(rel: Release, v: Option<real>): (r: real)
    ensures !rel.SinksModule? ==> 0.0 <= r <= 999.0 && (0.0 <= NumberOr0(v) <= 999.0 ==> r == Round3(NumberOr0(v)))
    ensures rel.SinksModule? ==> r == NumberOr0(v)
  {
    if rel.SinksModule? then NumberOr0(v) else Clamp(Round3(NumberOr0(v)), 0.0, 999.0)
  }

  /** The setback input: `clamp(round3(v), 0, 999)`, or `Math.max(0, toNum(v))` in the module. */
  function SetbackInput(rel: Release, v: Option<real>): (r: real)
    ensures r >= 0.0
    ensures !rel.SinksModule? ==> r <= 999.0
    ensures rel.SinksModule? ==> r == Max(0.0, NumberOr0(v))
  {
    if rel.SinksModule? then Max(0.0, NumberOr0(v)) else Clamp(Round3(NumberOr0(v)), 0.0, 999.0)
  }

  /** The corner radius input: always in [0, 4]. */
  function CornerRadiusInput(rel: Release, v: Option<real>): (r: real)
    ensures 0.0 <= r <= 4.0
    ensures rel.SinksModule? && 0.0 <= NumberOr0(v) <= 4.0 ==> r == NumberOr0(v)
  {
    if rel.SinksModule? then Clamp(NumberOr0(v), 0.0, 4.0) else Clamp(Round3(NumberOr0(v)), 0.0, 4.0)
  }

  /** The largest rotation the app's input accepts: 360 in v1.2.25, 180 in v1.1.28. */
  function MaxRotation(rel: Release): real
  {
    if rel == V1_1_28 then 180.0 else 360.0
  }

  /**
   * The rotation input: `clamp(Math.round(v || 0), 0, max)`, an integer in
   * [0, max]; the module takes `toNum(v)` as it is.
   */
  function RotationInput(rel: Release, v: Option<real>): (r: real)
    ensures !rel.SinksModule? ==> 0.0 <= r <= MaxRotation(rel) && r.Floor as real == r
    ensures !rel.SinksModule? && 0.0 <= NumberOr0(v) <= MaxRotation(rel) ==> r == Round(NumberOr0(v)) as real
    ensures rel.SinksModule? ==> r == NumberOr0(v)
  {
    if rel.SinksModule? then NumberOr0(v)
    else
      var k := Round(NumberOr0(v));
      var r := Clamp(k as real, 0.0, MaxRotation(rel));
      assert r == k as real || r == 0.0 || r == MaxRotation(rel);
      r
  }

  /** The length of the piece edge the centreline runs along: `piece.h` for left/right, `piece.w` otherwise. */
  function AxisLength(side: Side, pieceW: real, pieceH: real): real
  {
    if Sideways(side) then pieceH else pieceW
  }

  /**
   * On a change of reference side the centreline is rounded and clamped to
   * [0, the new edge's length], so the sink's centre stays on that edge.
   */
  function CenterlineOnSide(centerline: real, side: Side, pieceW: real, pieceH: real): (r: real)
    ensures r >= 0.0
    ensures AxisLength(side, pieceW, pieceH) >= 0.0 ==> r <= AxisLength(side, pieceW, pieceH)
    ensures 0.0 <= Round3(centerline) <= AxisLength(side, pieceW, pieceH) ==> r == Round3(centerline)
  {
    Clamp(Round3(centerline), 0.0, AxisLength(side, pieceW, pieceH))
  }

  /** One change made in a sink's editor. */
  datatype Edit =
    | ChooseType(kind: Kind)
    | ChooseModel(id: string)
    | ChooseShape(shape: Shape)
    | EnterLength(v: Option<real>)
    | EnterWidth(v: Option<real>)
    | EnterCornerRadius(v: Option<real>)
    | ChooseSide(side: Side)
    | EnterCenterline(v: Option<real>)
    | EnterSetback(v: Option<real>)
    | EnterRotation(v: Option<real>)
    | ToggleFaucet(slot: nat, checked: bool)

  /**
   * Whether the editor of `s` has the control for `e`: the module shows the
   * shape, size and corner controls only for a custom sink and has no
   * shape control in the app; the app's size row is hidden for a model sink.
   */
  predicate Offered(rel: Release, s: Sink, e: Edit)
  {
    match e
    case ChooseShape(_) => rel.SinksModule? && s.kind == CustomSink
    case EnterLength(_) => s.kind == CustomSink
    case EnterWidth(_) => s.kind == CustomSink
    case EnterCornerRadius(_) => !rel.SinksModule? || s.kind == CustomSink
    case ToggleFaucet(slot, _) => slot < SlotCount
    case _ => true
  }

  /**
   * The sink after the edit `e` on a `pieceW` x `pieceH` piece. Choosing
   * "model" re-applies the sink's model (the first one when it has none
   * or an unknown one); choosing a model records its id and applies it if
   * the catalogue has it. The app also clamps the centreline when the side
   * changes.
   */
  function Edited(rel: Release, s: Sink, e: Edit, pieceW: real, pieceH: real): (r: Sink)
    ensures r.id == s.id && r.faucets == (if e.ToggleFaucet? then r.faucets else s.faucets)
  {
    match e
    case ChooseType(k) =>
      var s1 := s.(kind := k);
      if k == ModelSink then
        var m := FindModel(Models(rel), s.modelId);
        ApplyModel(s1, if m.Some? then m else if Models(rel) != [] then Some(Models(rel)[0]) else None)
      else s1
    case ChooseModel(id) => ApplyModel(s.(modelId := Some(id)), FindModel(Models(rel), Some(id)))
    case ChooseShape(shape) => s.(shape := shape)
    case EnterLength(v) => s.(w := LengthInput(rel, v))
    case EnterWidth(v) => s.(h := LengthInput(rel, v))
    case EnterCornerRadius(v) => s.(cornerR := CornerRadiusInput(rel, v))
    case ChooseSide(side) =>
      if rel.SinksModule? then s.(side := side)
      else s.(side := side, centerline := CenterlineOnSide(s.centerline, side, pieceW, pieceH))
    case EnterCenterline(v) => s.(centerline := if rel.SinksModule? then NumberOr0(v) else Round3(NumberOr0(v)))
    case EnterSetback(v) => s.(setback := Some(SetbackInput(rel, v)))
    case EnterRotation(v) => s.(rotation := RotationInput(rel, v))
    case ToggleFaucet(slot, checked) => s.(faucets := Toggled(s.faucets, slot as real, checked))
  }

  /**
   * What an edit may change: a faucet toggle only the holes, a typed value
   * or a chosen shape only its own field (a length or width the clamped
   * input of `LengthInput`), a side change only the side and (in the app)
   * the centreline, a type or model choice only the type, the model id and
   * the model's shape, size and corner radius.
   * The sink's id, holes and placement survive a model change.
   */
  lemma EditedChangesOnly(rel: Release, s: Sink, e: Edit, pieceW: real, pieceH: real)
    ensures var r := Edited(rel, s, e, pieceW, pieceH);
      r.id == s.id &&
      (e.ToggleFaucet? ==> r == s.(faucets := r.faucets)) &&
      (e.EnterSetback? ==> r == s.(setback := r.setback) && r.setback.Some? && r.setback.value >= 0.0) &&
      (e.EnterRotation? ==> r == s.(rotation := r.rotation)) &&
      (e.EnterCornerRadius? ==> r == s.(cornerR := r.cornerR) && 0.0 <= r.cornerR <= 4.0) &&
      (e.EnterLength? ==> r == s.(w := LengthInput(rel, e.v))) &&
      (e.EnterWidth? ==> r == s.(h := LengthInput(rel, e.v))) &&
      (e.ChooseShape? ==> r == s.(shape := e.shape)) &&
      (e.EnterCenterline? ==> r == s.(centerline := r.centerline)) &&
      (e.ChooseSide? ==> r == s.(side := e.side, centerline := r.centerline)) &&
      (e.ChooseSide? && rel.SinksModule? ==> r == s.(side := e.side)) &&
      (e.ChooseType? || e.ChooseModel? ==>
         r == s.(kind := r.kind, modelId := r.modelId, shape := r.shape, w := r.w, h := r.h, cornerR := r.cornerR))
  {
  }

  /** A sink whose holes are a sorted set of slots keeps them so under every offered edit. */
  lemma EditedKeepsRack(rel: Release, s: Sink, e: Edit, pieceW: real, pieceH: real)
    requires Offered(rel, s, e)
    requires forall y :: y in s.faucets ==> IsSlot(y)
    ensures var r := Edited(rel, s, e, pieceW, pieceH);
      (forall y :: y in r.faucets ==> IsSlot(y)) && (e.ToggleFaucet? ==> Increasing(r.faucets))
  {
    if e.ToggleFaucet? {
      assert IsSlot(e.slot as real) by {
        assert (e.slot as real).Floor == e.slot;
      }
    }
  }

  /** In the app, after a side change the sink's centre lies on the new reference edge. */
  lemma SideChangeKeepsCentreOnEdge(rel: Release, s: Sink, side: Side, pieceW: real, pieceH: real, pieceRotation: real)
    requires !rel.SinksModule? && pieceW >= 0.0 && pieceH >= 0.0
    ensures var r := Edited(rel, s, ChooseSide(side), pieceW, pieceH);
      0.0 <= Along(SinkPose(pieceW, pieceH, pieceRotation, r), side) <= AxisLength(side, pieceW, pieceH)
  {
  }

  // ----- The card's list -------------------------------------------------

  /** Which of the two Add buttons the card shows for a piece with `n` sinks: (header, empty state). */
  function AddButtons(n: nat): (b: (bool, bool))
    ensures b.0 <==> 0 < n < MaxSinksPerPiece
    ensures b.1 <==> n == 0
    ensures b.0 || b.1 <==> n < MaxSinksPerPiece
  {
    (0 < n && n < MaxSinksPerPiece, n == 0)
  }

  /**
   * The Sinks card for the selected piece: the piece's `sinks` array and
   * the card's open (accordion) index for it, 0 when none was recorded.
   */
  class SinkCard {
    const release: Release
    var sinks: seq<Sink>
    var open: int

    ghost predicate Valid()
      reads this
    {
      |sinks| <= MaxSinksPerPiece && open >= 0
    }

    /** The sink whose editor is shown, if any. */
    function OpenSink(): (r: Option<Sink>)
      reads this
      ensures r.Some? <==> 0 <= open < |sinks|
      ensures r.Some? ==> r.value == sinks[open]
    {
      if 0 <= open < |sinks| then Some(sinks[open]) else None
    }

    constructor (rel: Release, sinks: seq<Sink>)
      ensures release == rel && this.sinks == sinks && open == 0
      ensures |sinks| <= MaxSinksPerPiece ==> Valid()
    {
      release := rel;
      this.sinks := sinks;
      open := 0;
    }

    /** A click on whichever Add button is shown: the new default sink goes last. */
    method Add(id: string)
      requires AddButtons(|sinks|).0 || AddButtons(|sinks|).1
      requires Models(release) != []
      modifies this
      ensures sinks == old(sinks) + [DefaultSink(release, id)] && open == old(open)
      ensures old(Valid()) ==> Valid()
    {
      sinks := sinks + [DefaultSink(release, id)];
    }

    /**
     * The app's Duplicate button of row `idx`: below the cap, a copy of the
     * sink (id included) is inserted right after it; at the cap nothing happens.
     */
    method Duplicate(idx: nat)
      requires !release.SinksModule? && idx < |sinks|
      modifies this
      ensures old(|sinks|) < MaxSinksPerPiece ==>
        sinks == old(sinks[..idx + 1]) + [old(sinks[idx])] + old(sinks[idx + 1..])
      ensures old(|sinks|) >= MaxSinksPerPiece ==> sinks == old(sinks)
      ensures open == old(open)
      ensures old(Valid()) ==> Valid()
    {
      if |sinks| < MaxSinksPerPiece {
        sinks := sinks[..idx + 1] + [sinks[idx]] + sinks[idx + 1..];
      }
    }

    /**
     * The app's Delete button of row `idx`: the sink is removed and the open
     * index clamped to `max(0, min(open, length - 1))`. The module's Remove
     * button splices the same way and has no open index.
     */
    method Delete(idx: nat)
      requires idx < |sinks|
      modifies this
      ensures sinks == old(sinks[..idx]) + old(sinks[idx + 1..])
      ensures !release.SinksModule? ==>
        open == if old(open) < 0 || sinks == [] then 0 else if old(open) < |sinks| then old(open) else |sinks| - 1
      ensures release.SinksModule? ==> open == old(open)
      ensures old(Valid()) ==> Valid()
      ensures !release.SinksModule? ==> 0 <= open && (sinks != [] ==> open < |sinks|)
    {
      sinks := sinks[..idx] + sinks[idx + 1..];
      if !release.SinksModule? {
        open := if open <= |sinks| - 1 then open else |sinks| - 1;
        if open < 0 {
          open := 0;
        }
      }
    }

    /** A click on row `idx` (outside its buttons) opens that sink's editor. */
    method Select(idx: nat)
      requires !release.SinksModule? && idx < |sinks|
      modifies this
      ensures open == idx && sinks == old(sinks)
      ensures old(Valid()) ==> Valid()
    {
      open := idx;
    }

    /** A change in the editor of sink `idx` on a `pieceW` x `pieceH` piece; no other sink changes. */
    method EditSink(idx: nat, e: Edit, pieceW: real, pieceH: real)
      requires idx < |sinks| && Offered(release, sinks[idx], e)
      modifies this
      ensures sinks == old(sinks)[idx := Edited(release, old(sinks[idx]), e, pieceW, pieceH)]
      ensures open == old(open)
      ensures old(Valid()) ==> Valid()
    {
      sinks := sinks[idx := Edited(release, sinks[idx], e, pieceW, pieceH)];
    }
  }

  /** Duplicating row `idx` and then deleting the copy at `idx + 1` restores the list. */
  lemma DuplicateThenDeleteRestores(sinks: seq<Sink>, idx: nat)
    requires idx < |sinks|
    ensures var dup := sinks[..idx + 1] + [sinks[idx]] + sinks[idx + 1..];
      dup[..idx + 1] + dup[idx + 2..] == sinks
  {
    var dup := sinks[..idx + 1] + [sinks[idx]] + sinks[idx + 1..];
    assert dup[..idx + 1] == sinks[..idx + 1];
    assert dup[idx + 2..] == sinks[idx + 1..];
  }
}
