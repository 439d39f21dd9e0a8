/**
 * The geometry kernel: `clamp`, `snap`, the inch/pixel conversions,
 * `realSize` (rotation folding and the rotated bounding box) and the
 * canvas clamp, with the variants of the oldest `cad-lite.js`.
 *
 * Lengths are inches as `real`. `Math.cos`/`Math.sin` are transcendental,
 * so they are supplied by the caller as a `Trig` record over degrees; the
 * only facts used about them are their values at 0 and 90 degrees.
 */
module Geometry {

  function Max(a: real, b: real): real { if a >= b then a else b }
  function Min(a: real, b: real): real { if a <= b then a else b }
  function Abs(x: real): real { if x < 0.0 then -x else x }

  /** `Math.round(x)`: the integer nearest to `x`, halves rounded up. */
  function Round(x: real): (r: int)
    ensures r as real <= x + 0.5 < r as real + 1.0
  {
    (x + 0.5).Floor
  }

  lemma RoundOfInteger(k: int)
    ensures Round(k as real) == k
  {
  }

  /** `round3`: rounding to a thousandth, as the sink editor stores inputs. */
  function Round3(x: real): (r: real)
    ensures x - 0.0005 < r <= x + 0.0005
  {
    Round(x * 1000.0) as real / 1000.0
  }

  /**
   * `clamp(n, a, b) = Math.max(a, Math.min(b, n))` (v1.1.28 and v1.2.25):
   * the lower bound wins when the bounds cross.
   */
  function Clamp(n: real, lo: real, hi: real): (r: real)
    ensures r >= lo
    ensures lo <= hi ==> r <= hi
    ensures lo <= n <= hi ==> r == n
    ensures n < lo || hi < lo ==> r == lo
    ensures lo <= hi < n ==> r == hi
  {
    Max(lo, Min(hi, n))
  }

  /**
   * `clamp(n, min, max) = Math.min(max, Math.max(min, n))` in `cad-lite.js`:
   * the same as `Clamp` while the bounds are ordered, but here the UPPER
   * bound wins when they cross.
   */
  function ClampLegacy(n: real, lo: real, hi: real): (r: real)
    ensures r <= hi
    ensures lo <= hi ==> r == Clamp(n, lo, hi)
    ensures hi < lo ==> r == hi
  {
    Min(hi, Max(lo, n))
  }

  /** `snap(n, step) = Math.round(n / step) * step`. */
  function Snap(n: real, step: real): (r: real)
    requires step != 0.0
    ensures OnGrid(r, step)
    ensures step > 0.0 ==> r - step / 2.0 <= n < r + step / 2.0
  {
    var k := Round(n / step);
    OnGridMultiple(k, step);
    if step > 0.0 then
      SnapNearest(n, step, k);
      k as real * step
    else
      k as real * step
  }

  /** `v` is an integer multiple of `step`. */
  predicate OnGrid(v: real, step: real)
    requires step != 0.0
  {
    (v / step).Floor as real == v / step
  }

  lemma OnGridMultiple(k: int, step: real)
    requires step != 0.0
    ensures OnGrid(k as real * step, step)
  {
    DivCancel(k as real, step);
    assert (k as real).Floor == k;
  }

  lemma DivCancel(a: real, step: real)
    requires step != 0.0
    ensures a * step / step == a
  {
  }

  lemma SnapNearest(n: real, step: real, k: int)
    requires step > 0.0 && k == Round(n / step)
    ensures k as real * step - step / 2.0 <= n < k as real * step + step / 2.0
  {
    var q := n / step;
    var kr := k as real;
    assert kr <= q + 0.5 < kr + 1.0;
    MulMono(kr, q + 0.5, step);
    MulMonoStrict(q + 0.5, kr + 1.0, step);
    calc {
      (q + 0.5) * step;
      q * step + 0.5 * step;
      { DivCancelLeft(n, step); }
      n + step / 2.0;
    }
    assert (kr + 1.0) * step == kr * step + step;
    assert kr * step <= n + step / 2.0;
    assert n + step / 2.0 < kr * step + step;
  }

  lemma DivCancelLeft(n: real, step: real)
    requires step != 0.0
    ensures n / step * step == n
  {
  }

  lemma MulMono(a: real, b: real, c: real)
    requires a <= b && c > 0.0
    ensures a * c <= b * c
  {
  }

  lemma MulMonoStrict(a: real, b: real, c: real)
    requires a < b && c > 0.0
    ensures a * c < b * c
  {
  }

  /** Snapping a value that is already on the grid leaves it there. */
  lemma {:induction false} SnapIdempotent(n: real, step: real)
    requires step != 0.0
    ensures Snap(Snap(n, step), step) == Snap(n, step)
  {
    var k := Round(n / step);
    var v := k as real * step;
    assert Snap(n, step) == v;
    DivCancel(k as real, step);
    assert v / step == k as real;
    RoundOfInteger(k);
    assert Round(v / step) == k;
  }

  /** `i2p`: inches to pixels at the layout's scale. */
  function InchesToPixels(inches: real, scale: real): real { inches * scale }

  /** `p2i`: pixels to inches. */
  function PixelsToInches(px: real, scale: real): real
    requires scale != 0.0
  {
    px / scale
  }

  lemma PixelsInchesRoundTrip(v: real, scale: real)
    requires scale != 0.0
    ensures PixelsToInches(InchesToPixels(v, scale), scale) == v
    ensures InchesToPixels(PixelsToInches(v, scale), scale) == v
  {
  }

  /** `Math.cos`/`Math.sin` taking degrees. */
  datatype Trig = Trig(cosDeg: real -> real, sinDeg: real -> real)

  /** The only facts the model relies on: the values at 0 and 90 degrees. */
  ghost predicate Exact(t: Trig)
  {
    t.cosDeg(0.0) == 1.0 && t.sinDeg(0.0) == 0.0 &&
    t.cosDeg(90.0) == 0.0 && t.sinDeg(90.0) == 1.0
  }

  /** JavaScript `a % 180` for `a >= 0`. */
  function Mod180(a: real): (r: real)
    requires a >= 0.0
    ensures 0.0 <= r < 180.0
  {
    a - 180.0 * (a / 180.0).Floor as real
  }

  /**
   * `realSize`'s folding (v1.1.28 and v1.2.25): `raw = |rotation| % 180`,
   * then angles past 90 are mirrored to `180 - raw`.
   */
  function FoldDeg(rotation: real): (deg: real)
    ensures 0.0 <= deg <= 90.0
  {
    var raw := Mod180(Abs(rotation));
    if raw > 90.0 then 180.0 - raw else raw
  }

  /** The Euclidean remainder of `y` by 180, defined for every real. */
  function EuclidMod180(y: real): (m: real)
    ensures 0.0 <= m < 180.0
  {
    y - 180.0 * (y / 180.0).Floor as real
  }

  function Mirror90(m: real): real { if m > 90.0 then 180.0 - m else m }

  lemma FloorIs(x: real, k: int)
    requires k as real <= x < k as real + 1.0
    ensures x.Floor == k
  {
  }

  /** The fold is the distance to the nearest multiple of 180 degrees. */
  lemma {:induction false} FoldIsMirroredRemainder(y: real)
    ensures FoldDeg(y) == Mirror90(EuclidMod180(y))
  {
    var q := (y / 180.0).Floor;
    var m := y - 180.0 * q as real;
    assert m == EuclidMod180(y);
    if y < 0.0 {
      if m == 0.0 {
        FloorIs(-y / 180.0, -q);
        assert Mod180(-y) == 0.0;
      } else {
        FloorIs(-y / 180.0, -q - 1);
        assert Mod180(-y) == 180.0 - m;
      }
    }
  }

  lemma {:induction false} EuclidMod180Shift(y: real, k: int)
    ensures EuclidMod180(y + 180.0 * k as real) == EuclidMod180(y)
  {
    var q := (y / 180.0).Floor;
    FloorIs((y + 180.0 * k as real) / 180.0, q + k);
  }

  lemma {:induction false} FoldShift(theta: real, k: int)
    ensures FoldDeg(theta + 180.0 * k as real) == FoldDeg(theta)
  {
    FoldIsMirroredRemainder(theta);
    FoldIsMirroredRemainder(theta + 180.0 * k as real);
    EuclidMod180Shift(theta, k);
  }

  /** The axis-aligned bounding box of a W x H rectangle turned by `deg`. */
  datatype Box = Box(w: real, h: real)

  function BoxAt(w: real, h: real, deg: real, t: Trig): Box
  {
    var c := t.cosDeg(deg);
    var s := t.sinDeg(deg);
    Box(Abs(w * c) + Abs(h * s), Abs(w * s) + Abs(h * c))
  }

  /** `realSize(p)` of v1.1.28 and v1.2.25. */
  function RealSize(w: real, h: real, rotation: real, t: Trig): (b: Box)
    ensures b.w >= 0.0 && b.h >= 0.0
  {
    BoxAt(w, h, FoldDeg(rotation), t)
  }

  /** Turning by a half turn, or reflecting to the supplement, gives the same box. */
  lemma {:induction false} RealSizeSymmetric(w: real, h: real, theta: real, t: Trig)
    ensures RealSize(w, h, theta + 180.0, t) == RealSize(w, h, theta, t)
    ensures RealSize(w, h, 180.0 - theta, t) == RealSize(w, h, theta, t)
    ensures RealSize(w, h, -theta, t) == RealSize(w, h, theta, t)
  {
    FoldShift(theta, 1);
    FoldShift(theta, -1);
    assert 180.0 - theta == -(theta + 180.0 * (-1) as real);
  }

  lemma RealSizeAxisAligned(w: real, h: real, t: Trig)
    requires Exact(t)
    ensures RealSize(w, h, 0.0, t) == Box(Abs(w), Abs(h))
    ensures RealSize(w, h, 90.0, t) == Box(Abs(h), Abs(w))
  {
    FloorIs(0.0, 0);
    FloorIs(0.5, 0);
  }

  /** `realSize` of `cad-lite.js`: the rotation is clamped to [0, 90] instead of folded. */
  function RealSizeLegacy(w: real, h: real, rotation: real, t: Trig): (b: Box)
    ensures rotation >= 90.0 ==> b == BoxAt(w, h, 90.0, t)
    ensures rotation <= 0.0 ==> b == BoxAt(w, h, 0.0, t)
    ensures 0.0 <= rotation <= 90.0 ==> b == RealSize(w, h, rotation, t)
  {
    var deg := Max(0.0, Min(90.0, rotation));
    if 0.0 <= rotation <= 90.0 then
      FoldIsMirroredRemainder(rotation);
      FloorIs(rotation / 180.0, 0);
      BoxAt(w, h, deg, t)
    else
      BoxAt(w, h, deg, t)
  }

  /** 120 degrees: the older file gives the 90-degree box, the newer ones the 60-degree box. */
  lemma {:induction false} LegacyAndFoldDisagreeAt120(w: real, h: real, t: Trig)
    ensures RealSizeLegacy(w, h, 120.0, t) == RealSize(w, h, 90.0, t)
    ensures RealSize(w, h, 120.0, t) == RealSize(w, h, 60.0, t)
  {
    assert RealSizeLegacy(w, h, 90.0, t) == RealSize(w, h, 90.0, t);
    RealSizeSymmetric(w, h, 60.0, t);
    assert 180.0 - 60.0 == 120.0;
  }

  /**
   * One axis of `clampToCanvas(p)` in v1.1.28/v1.2.25:
   * `clamp(v, 0, extent - size)`.
   */
  function ClampToCanvasAxis(v: real, extent: real, size: real): (r: real)
    ensures r >= 0.0
    ensures size <= extent ==> r <= extent - size
    ensures 0.0 <= v && v + size <= extent ==> r == v
    ensures Clamp(r, 0.0, extent - size) == r
  {
    Clamp(v, 0.0, extent - size)
  }

  /**
   * One axis of `clampToCanvas(p)` in `cad-lite.js`: an item larger than
   * the canvas lands at `extent - size`, left of (or above) the origin.
   */
  function ClampToCanvasAxisLegacy(v: real, extent: real, size: real): (r: real)
    ensures r + size <= extent
    ensures size <= extent ==> 0.0 <= r && r == ClampToCanvasAxis(v, extent, size)
    ensures extent < size ==> r == extent - size && r < 0.0
  {
    ClampLegacy(v, 0.0, extent - size)
  }
}
