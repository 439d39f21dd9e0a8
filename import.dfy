/**
 * `loadLayout(parsed)`: how an imported layout file is normalised before
 * it replaces the current layout's settings and pieces. The file's values
 * arrive as JSON values of any type; `Raw` keeps the ones whose coercion
 * the import depends on.
 */
module Import {
  import opened Wrappers
  import opened Geometry
  import opened Sinks
  import opened Pieces

  /**
   * A JSON value where a number is expected. `Text` carries what
   * `Number(text)` parses it to (`None` for NaN); `Obj` is an array or
   * object, always truthy, carrying what `Number(v)` makes of it
   * (`Number([])` is 0, `Number([7])` is 7, `Number({})` is NaN);
   * `Missing` is an absent field (`undefined`).
   */
  datatype Raw = Num(v: real) | Text(s: string, parsed: Option<real>) | Bool(b: bool) | Null | Obj(n: Option<real>) | Missing

  /** `Number(v)`: `None` stands for NaN. */
  function ToNumber(r: Raw): (n: Option<real>)
    ensures r.Num? ==> n == Some(r.v)
    ensures r.Missing? ==> n.None?
  {
    match r
    case Num(v) => Some(v)
    case Text(_, p) => p
    case Bool(b) => Some(if b then 1.0 else 0.0)
    case Null => Some(0.0)
    case Obj(n) => n
    case Missing => None
  }

  /** JavaScript truthiness, `!!v`. */
  predicate Truthy(r: Raw)
  {
    match r
    case Num(v) => v != 0.0
    case Text(s, _) => s != ""
    case Bool(b) => b
    case Null => false
    case Obj(_) => true
    case Missing => false
  }

  /** `Number(v) || d`: the number, unless it is 0 or NaN. */
  function NumberOr(r: Raw, d: real): (x: real)
    ensures ToNumber(r).Some? && ToNumber(r).value != 0.0 ==> x == ToNumber(r).value
    ensures ToNumber(r).None? || ToNumber(r).value == 0.0 ==> x == d
    ensures d != 0.0 ==> x != 0.0
  {
    var n := ToNumber(r);
    if n.Some? && n.value != 0.0 then n.value else d
  }

  /** `Number.isFinite(n)`: only a number passes (the model has no infinities); text does not. */
  predicate IsFinite(r: Raw)
  {
    r.Num?
  }

  // ----- Sinks -------------------------------------------------------------

  /**
   * A sink as it appears in the file. Text fields are given as strings,
   * with `""` for any falsy or missing value; `modelId` is `None` for
   * `null` or a missing field; `faucets` is `None` when it is not an array.
   */
  datatype RawSink = RawSink(
    id: string,
    kind: Option<Kind>,
    modelId: Option<string>,
    shape: Option<Shape>,
    w: Raw,
    h: Raw,
    cornerR: Raw,
    side: Option<Side>,
    centerline: Raw,
    setback: Raw,
    rotation: Raw,
    faucets: Option<seq<Raw>>)

  /** `faucets.filter(n => Number.isFinite(n))`. */
  function FiniteNumbers(rs: seq<Raw>): (xs: seq<real>)
    ensures |xs| <= |rs|
    ensures forall x :: x in xs <==> Num(x) in rs
    ensures |xs| == |rs| <==> forall k :: 0 <= k < |rs| ==> IsFinite(rs[k])
  {
    if rs == [] then []
    else
      var rest := FiniteNumbers(rs[1..]);
      assert forall r :: r in rs <==> r == rs[0] || r in rs[1..];
      if IsFinite(rs[0]) then [rs[0].v] + rest else rest
  }

  /** The filter keeps the numbers in their order and with their repeats. */
  lemma {:induction false} FiniteNumbersAppend(a: seq<Raw>, b: seq<Raw>)
    ensures FiniteNumbers(a + b) == FiniteNumbers(a) + FiniteNumbers(b)
  {
    if a == [] {
      assert a + b == b;
    } else {
      assert (a + b)[0] == a[0] && (a + b)[1..] == a[1..] + b;
      FiniteNumbersAppend(a[1..], b);
    }
  }

  /** One value: a number is kept, anything else (numeric text included) is dropped. */
  lemma FiniteNumbersOne(r: Raw)
    ensures FiniteNumbers([r]) == (if r.Num? then [r.v] else [])
  {
    assert [r][1..] == [];
  }

  /** `.slice(0, 9)`. */
  function FirstNine(xs: seq<real>): (r: seq<real>)
    ensures |r| <= 9 && r <= xs
    ensures |xs| <= 9 ==> r == xs
  {
    if |xs| <= 9 then xs else xs[..9]
  }

  /** `s.modelId` is truthy: present and not empty. */
  predicate HasModelId(modelId: Option<string>)
  {
    modelId.Some? && modelId.value != ""
  }

  /** The sink record built from the file, before the catalogue is applied. */
  function SinkFields(rel: Release, s: RawSink, freshId: string): Sink
  {
    Sink(
      if s.id != "" then s.id else freshId,
      if s.kind.Some? then s.kind.value else if HasModelId(s.modelId) then ModelSink else CustomSink,
      s.modelId,
      if s.shape.Some? then s.shape.value else Rect,
      NumberOr(s.w, 16.0),
      NumberOr(s.h, 16.0),
      Clamp(NumberOr(s.cornerR, 0.0), 0.0, 4.0),
      if s.side.Some? then s.side.value else Front,
      NumberOr(s.centerline, 20.0),
      Some(NumberOr(s.setback, StandardSetback)),
      if s.faucets.Some? then FirstNine(FiniteNumbers(s.faucets.value)) else [],
      Clamp(NumberOr(s.rotation, 0.0), 0.0, MaxRotation(rel)))
  }

  /**
   * One imported sink (v1.1.28 and v1.2.25): every field is coerced to a
   * usable value, and a model sink whose model is in the catalogue takes
   * that model's shape and size again.
   */
  function ImportSink(rel: Release, s: RawSink, freshId: string): (r: Sink)
    ensures r.id == (if s.id != "" then s.id else freshId)
    ensures 0.0 <= r.cornerR <= 4.0
    ensures MaxRotation(rel) >= 0.0 ==> 0.0 <= r.rotation <= MaxRotation(rel)
    ensures r.setback.Some? && r.setback.value != 0.0
    ensures s.setback.Missing? ==> r.setback == Some(StandardSetback)
    ensures |r.faucets| <= 9 && forall x :: x in r.faucets ==> s.faucets.Some? && Num(x) in s.faucets.value
    ensures r.faucets == (if s.faucets.Some? then FirstNine(FiniteNumbers(s.faucets.value)) else [])
    ensures r.w != 0.0 && r.h != 0.0
    ensures !(r.kind == ModelSink && HasModelId(r.modelId) && FindModel(AppModels, r.modelId).Some?) ==>
      r.w == NumberOr(s.w, 16.0) && r.h == NumberOr(s.h, 16.0) && r.shape == (if s.shape.Some? then s.shape.value else Rect) &&
      r.cornerR == Clamp(NumberOr(s.cornerR, 0.0), 0.0, 4.0)
    ensures r.side == (if s.side.Some? then s.side.value else Front)
    ensures r.centerline == NumberOr(s.centerline, 20.0)
    ensures r.setback == Some(NumberOr(s.setback, StandardSetback))
    ensures r.rotation == Clamp(NumberOr(s.rotation, 0.0), 0.0, MaxRotation(rel))
    ensures r.modelId == s.modelId
    ensures s.kind.None? ==> (r.kind == ModelSink <==> HasModelId(s.modelId))
    ensures r.kind == ModelSink && HasModelId(r.modelId) && FindModel(AppModels, r.modelId).Some? ==>
      var m := FindModel(AppModels, r.modelId).value; r.shape == m.shape && r.w == m.w && r.h == m.h
  {
    var f := SinkFields(rel, s, freshId);
    if f.kind == ModelSink && HasModelId(f.modelId) then
      ApplyModel(f, FindModel(AppModels, f.modelId))
    else f
  }

  /** A sink without a setback, or with setback 0, comes back with the standard setback. */
  lemma ZeroSetbackBecomesStandard(rel: Release, s: RawSink, freshId: string)
    requires s.setback == Num(0.0) || s.setback.Missing? || s.setback.Null?
    ensures ImportSink(rel, s, freshId).setback == Some(StandardSetback)
  {
  }

  /** A sink saved by the app (all fields plain numbers in range, at most nine holes) is imported unchanged. */
  lemma SavedSinkRoundTrip(rel: Release, sink: Sink)
    requires sink.id != "" && 0.0 <= sink.cornerR <= 4.0 && 0.0 <= sink.rotation <= MaxRotation(rel)
    requires sink.w != 0.0 && sink.h != 0.0 && sink.centerline != 0.0
    requires sink.setback.Some? && sink.setback.value != 0.0 && |sink.faucets| <= 9
    requires sink.kind == CustomSink
    ensures ImportSink(rel, Export(sink), "") == sink
  {
    FiniteOfNumbers(sink.faucets);
  }

  /** A sink saved on its edge's zero point comes back 20 inches along it. */
  lemma ZeroCenterlineMoves(rel: Release, sink: Sink)
    requires sink.centerline == 0.0
    ensures ImportSink(rel, Export(sink), "").centerline == 20.0
  {
  }

  /** The file form of a sink, as JSON writes it. */
  function Export(s: Sink): RawSink
  {
    RawSink(s.id, Some(s.kind), s.modelId, Some(s.shape), Num(s.w), Num(s.h), Num(s.cornerR), Some(s.side),
            Num(s.centerline), if s.setback.Some? then Num(s.setback.value) else Missing, Num(s.rotation),
            Some(Nums(s.faucets)))
  }

  /** Numbers as JSON writes them. */
  function Nums(xs: seq<real>): (rs: seq<Raw>)
    ensures |rs| == |xs| && forall k :: 0 <= k < |xs| ==> rs[k] == Num(xs[k])
  {
    if xs == [] then [] else [Num(xs[0])] + Nums(xs[1..])
  }

  lemma {:induction false} FiniteOfNumbers(xs: seq<real>)
    ensures FiniteNumbers(Nums(xs)) == xs
  {
    if xs != [] {
      FiniteOfNumbers(xs[1..]);
      assert Nums(xs) == [Num(xs[0])] + Nums(xs[1..]);
      FiniteNumbersAppend([Num(xs[0])], Nums(xs[1..]));
      FiniteNumbersOne(Num(xs[0]));
      assert xs == [xs[0]] + xs[1..];
    }
  }

  // ----- Pieces ------------------------------------------------------------

  /** A piece as it appears in the file; `sinks` is `None` when it is not an array. */
  datatype RawPiece = RawPiece(
    name: string,
    w: Raw,
    h: Raw,
    x: Raw,
    y: Raw,
    rotation: Raw,
    color: string,
    layer: Raw,
    rTL: Raw,
    rTR: Raw,
    rBL: Raw,
    rBR: Raw,
    sinks: Option<seq<RawSink>>)

  /**
   * The imported rotation: `q.rotation === 90 ? 90 : Number(q.rotation) || 0`;
   * `cad-lite.js` keeps only a numeric 90 and turns everything else to 0.
   */
  function ImportRotation(v: Version, r: Raw): (rot: real)
    ensures r == Num(90.0) ==> rot == 90.0
    ensures v == CadLite ==> (rot == 90.0 <==> r == Num(90.0)) && (rot == 0.0 || rot == 90.0)
    ensures v != CadLite ==> rot == NumberOr(r, 0.0)
  {
    if r == Num(90.0) then 90.0 else if v == CadLite then 0.0 else NumberOr(r, 0.0)
  }

  /** The text "90" imports as 90 degrees from v1.1.28 on, but as 0 in `cad-lite.js`. */
  lemma TextRotationDropped()
    ensures ImportRotation(CadLite, Text("90", Some(90.0))) == 0.0
    ensures ImportRotation(CadLite1_2_25, Text("90", Some(90.0))) == 90.0
  {
  }

  /**
   * One imported piece, with the fresh id `id`: size 1 x 1 and position 0
   * for missing values, the corner flags by truthiness, and the sinks
   * (none in `cad-lite.js`) each with a fresh id `sinkId(k)` when it has
   * none of its own.
   */
  function ImportPiece(v: Version, q: RawPiece, id: string, sinkId: nat -> string): (p: Piece)
    ensures p.id == id && p.w != 0.0 && p.h != 0.0
    ensures p.w == NumberOr(q.w, 1.0) && p.h == NumberOr(q.h, 1.0)
    ensures p.name != "" && (q.name != "" ==> p.name == q.name)
    ensures p.color != "" && (q.color != "" ==> p.color == q.color)
    ensures q.name == "" ==> p.name == "Piece"
    ensures q.color == "" ==> p.color == "#ffffff"
    ensures p.x == NumberOr(q.x, 0.0) && p.y == NumberOr(q.y, 0.0) && p.layer == NumberOr(q.layer, 0.0)
    ensures p.rotation == ImportRotation(v, q.rotation)
    ensures p.corners == Corners(Truthy(q.rTL), Truthy(q.rTR), Truthy(q.rBL), Truthy(q.rBR))
    ensures v == CadLite || q.sinks.None? ==> p.sinks == []
    ensures v != CadLite && q.sinks.Some? ==>
      |p.sinks| == |q.sinks.value| &&
      forall k :: 0 <= k < |p.sinks| ==> p.sinks[k] == ImportSink(SinkRelease(v), q.sinks.value[k], sinkId(k))
  {
    var sinks :=
      if v == CadLite || q.sinks.None? then []
      else seq(|q.sinks.value|, k requires 0 <= k < |q.sinks.value| => ImportSink(SinkRelease(v), q.sinks.value[k], sinkId(k)));
    Piece(id, if q.name != "" then q.name else "Piece",
          NumberOr(q.w, 1.0), NumberOr(q.h, 1.0), NumberOr(q.x, 0.0), NumberOr(q.y, 0.0),
          ImportRotation(v, q.rotation), if q.color != "" then q.color else "#ffffff",
          NumberOr(q.layer, 0.0), Corners(Truthy(q.rTL), Truthy(q.rTR), Truthy(q.rBL), Truthy(q.rBR)), sinks)
  }

  /**
   * `parsed.pieces.map(...)`: piece `i` gets the fresh id `ids(i)`, so the
   * imported pieces' ids are distinct whenever the fresh ids are.
   */
  function ImportPieces(v: Version, qs: seq<RawPiece>, ids: nat -> string, sinkIds: nat -> nat -> string): (ps: seq<Piece>)
    ensures |ps| == |qs|
    ensures forall i :: 0 <= i < |ps| ==> ps[i] == ImportPiece(v, qs[i], ids(i), sinkIds(i))
    ensures (forall i, j :: 0 <= i < j < |qs| ==> ids(i) != ids(j)) ==>
      forall i, j :: 0 <= i < j < |ps| ==> ps[i].id != ps[j].id
  {
    seq(|qs|, i requires 0 <= i < |qs| => ImportPiece(v, qs[i], ids(i), sinkIds(i)))
  }

  // ----- Settings --------------------------------------------------------

  /** The current layout's settings that a file can replace. */
  datatype Settings = Settings(cw: real, ch: real, grid: real, scale: real, showGrid: bool)

  /**
   * The parts of the file outside the pieces. `canvas` is `None` when the
   * file has no canvas object; `showGrid` is `None` unless it is a boolean.
   */
  datatype RawLayout = RawLayout(
    projectName: string,
    projectDate: string,
    notes: Option<string>,
    canvas: Option<(Raw, Raw)>,
    grid: Raw,
    scale: Raw,
    showGrid: Option<bool>,
    pieces: Option<seq<RawPiece>>)

  /**
   * The settings after the import: each value the file gives as a nonzero
   * number replaces the current one, which a missing, zero or NaN value
   * keeps; `showGrid` only by a boolean.
   */
  function ImportSettings(cur: Settings, f: RawLayout): (r: Settings)
    ensures cur.grid != 0.0 ==> r.grid != 0.0
    ensures cur.scale != 0.0 ==> r.scale != 0.0
    ensures cur.cw != 0.0 && cur.ch != 0.0 ==> r.cw != 0.0 && r.ch != 0.0
    ensures f.canvas.None? ==> r.cw == cur.cw && r.ch == cur.ch
    ensures !Truthy(f.grid) ==> r.grid == cur.grid
    ensures ToNumber(f.grid).Some? && ToNumber(f.grid).value != 0.0 && Truthy(f.grid) ==> r.grid == ToNumber(f.grid).value
    ensures f.showGrid.Some? ==> r.showGrid == f.showGrid.value
    ensures f.showGrid.None? ==> r.showGrid == cur.showGrid
  {
    var (cw, ch) := if f.canvas.Some? then (NumberOr(f.canvas.value.0, cur.cw), NumberOr(f.canvas.value.1, cur.ch)) else (cur.cw, cur.ch);
    Settings(cw, ch,
             if Truthy(f.grid) then NumberOr(f.grid, cur.grid) else cur.grid,
             if Truthy(f.scale) then NumberOr(f.scale, cur.scale) else cur.scale,
             if f.showGrid.Some? then f.showGrid.value else cur.showGrid)
  }

  /** Importing the same file twice leaves the settings as importing it once. */
  lemma ImportSettingsIdempotent(cur: Settings, f: RawLayout)
    ensures ImportSettings(ImportSettings(cur, f), f) == ImportSettings(cur, f)
  {
  }
}
