/** The thumbstick deadzone library: a two-component vector and six transforms
    that filter a raw stick sample against a deadzone radius.  Every quantity is
    a `real`; a Python `ZeroDivisionError` or `ValueError` is an `Err` value. */
module Deadzone {
  import opened Wrappers
  import opened RealArith

  /** A Python argument as the vector constructor sees it: a number (`int`,
      `float` or `bool`), a list, tuple or `Vector2` of items, `None`, or
      anything else. */
  datatype Arg = Number(n: real) | Items(elems: seq<Arg>) | NoArg | Other

  /** The exceptions the library raises. */
  datatype Error = ValueError | IndexError | ZeroDivisionError

  /** The value of a vector: its two components. */
  datatype Vec2 = Vec2(x: real, y: real)

  const Zero := Vec2(0.0, 0.0)

  function Abs(r: real): (a: real)
    ensures a >= 0.0 && (a == r || a == -r)
  {
    if r < 0.0 then -r else r
  }

  /** Both components lie in [-1, 1]. */
  predicate InUnitSquare(v: Vec2) {
    Abs(v.x) <= 1.0 && Abs(v.y) <= 1.0
  }

  /** `m` is the Euclidean magnitude of `v`: the non-negative square root of
      x*x + y*y, which is what `Vector2.magnitude` computes. */
  predicate IsMagnitude(v: Vec2, m: real)
  {
    m >= 0.0 && m * m == v.x * v.x + v.y * v.y
  }

  /** The test `magnitude() < deadzone` without a square root. */
  predicate BelowDeadzone(v: Vec2, d: real)
  {
    d > 0.0 && v.x * v.x + v.y * v.y < d * d
  }

  /** The validation in `Vector2.__init__(x, y=None)`: a list, tuple or vector of
      exactly two numbers, or two numbers; anything else is a ValueError. */
  function Components(x: Arg, y: Arg): (r: Result<Vec2, Error>)
    ensures r.Ok? <==>
      (x.Items? && |x.elems| == 2 && x.elems[0].Number? && x.elems[1].Number?) ||
      (x.Number? && y.Number?)
    ensures r.Ok? && x.Items? ==> r.value == Vec2(x.elems[0].n, x.elems[1].n)
    ensures r.Ok? && x.Number? ==> r.value == Vec2(x.n, y.n)
    ensures r.Err? ==> r.error == ValueError
  {
    if x.Items? then
      if |x.elems| != 2 then Err(ValueError)
      else if !x.elems[0].Number? then Err(ValueError)
      else if !x.elems[1].Number? then Err(ValueError)
      else Ok(Vec2(x.elems[0].n, x.elems[1].n))
    else if x.Number? && y.Number? then Ok(Vec2(x.n, y.n))
    else Err(ValueError)
  }

  /** Copying a vector (`Vector2(v)`, which every transform does first) gives
      back its components, whichever way the vector is passed. */
  lemma CopyIsIdentity(v: Vec2)
    ensures Components(Items([Number(v.x), Number(v.y)]), NoArg) == Ok(v)
    ensures Components(Number(v.x), Number(v.y)) == Ok(v)
  {
  }

  /** The mutable vector object. */
  class Vector2 {
    var x: real
    var y: real

    function Pair(): (p: Vec2)
      reads this
    {
      Vec2(x, y)
    }

    /** The successful path of `__init__`, once both components are numbers. */
    constructor (x: real, y: real)
      ensures Pair() == Vec2(x, y)
    {
      this.x := x;
      this.y := y;
    }

    /** `Vector2(x, y)`: a fresh vector holding the validated components, or
        the ValueError `__init__` raises. */
    static method New(x: Arg, y: Arg) returns (r: Result<Vector2, Error>)
      ensures r.Err? <==> Components(x, y).Err?
      ensures r.Err? ==> r.error == ValueError
      ensures r.Ok? ==> fresh(r.value) && r.value.Pair() == Components(x, y).value
    {
      var c := Components(x, y);
      if c.Err? {
        return Err(c.error);
      }
      var v := new Vector2(c.value.x, c.value.y);
      return Ok(v);
    }

    /** `v[index] = value`: a non-number is refused before anything changes,
        index 0 sets x, index 1 sets y, any other index is an IndexError. */
    method SetItem(index: int, value: Arg) returns (raised: Option<Error>)
      modifies this
      ensures !value.Number? ==> raised == Some(ValueError) && Pair() == old(Pair())
      ensures value.Number? && index == 0 ==> raised == None && Pair() == Vec2(value.n, old(y))
      ensures value.Number? && index == 1 ==> raised == None && Pair() == Vec2(old(x), value.n)
      ensures value.Number? && index != 0 && index != 1 ==>
                raised == Some(IndexError) && Pair() == old(Pair())
    {
      if !value.Number? {
        return Some(ValueError);
      }
      if index == 0 {
        x := value.n;
      } else if index == 1 {
        y := value.n;
      } else {
        return Some(IndexError);
      }
      return None;
    }

    /** `to_zero`: zeroes both components and returns the same object. */
    method ToZero() returns (self: Vector2)
      modifies this
      ensures self == this && Pair() == Zero
    {
      x := 0.0;
      y := 0.0;
      return this;
    }
  }

  /** `map_range`: the linear map taking oldMin to newMin and oldMax to newMax. */
  function MapRange(value: real, oldMin: real, oldMax: real, newMin: real, newMax: real): (r: real)
    requires oldMin != oldMax
  {
    newMin + (newMax - newMin) * (value - oldMin) / (oldMax - oldMin)
  }

  /** The ends of the old range land on the ends of the new one. */
  lemma MapRangeEndpoints(oldMin: real, oldMax: real, newMin: real, newMax: real)
    requires oldMin != oldMax
    ensures MapRange(oldMin, oldMin, oldMax, newMin, newMax) == newMin
    ensures MapRange(oldMax, oldMin, oldMax, newMin, newMax) == newMax
  {
    var a, b := newMax - newMin, oldMax - oldMin;
    assert a * (oldMin - oldMin) == 0.0;
    MulDivCancel(a, b);
    assert (b * a) / b == a;
    assert a * (oldMax - oldMin) == b * a;
  }

  /** Mapping a range forwards and then backwards gives back the value. */
  lemma MapRangeInverse(v: real, oldMin: real, oldMax: real, newMin: real, newMax: real)
    requires oldMin != oldMax && newMin != newMax
    ensures MapRange(MapRange(v, oldMin, oldMax, newMin, newMax), newMin, newMax, oldMin, oldMax) == v
  {
    var a, b := newMax - newMin, oldMax - oldMin;
    var x := a * (v - oldMin);
    var u := MapRange(v, oldMin, oldMax, newMin, newMax);
    var y := u - newMin;
    assert y == x / b;
    MulDivCancel(x, b);
    assert b * y == x;
    MulDivCancel(v - oldMin, a);
    assert x / a == v - oldMin;
    assert MapRange(u, newMin, newMax, oldMin, oldMax) == oldMin + b * y / a;
  }

  /** An increasing range is mapped onto an increasing range monotonically. */
  lemma MapRangeMonotone(v: real, w: real, oldMin: real, oldMax: real, newMin: real, newMax: real)
    requires oldMin < oldMax && newMin <= newMax && v <= w
    ensures MapRange(v, oldMin, oldMax, newMin, newMax) <= MapRange(w, oldMin, oldMax, newMin, newMax)
  {
    var a, b := newMax - newMin, oldMax - oldMin;
    MulMonotone(v - oldMin, w - oldMin, a);
    calc {
      MapRange(v, oldMin, oldMax, newMin, newMax);
      newMin + a * (v - oldMin) / b;
    <= { DivMonotone(a * (v - oldMin), a * (w - oldMin), b); }
      newMin + a * (w - oldMin) / b;
      MapRange(w, oldMin, oldMax, newMin, newMax);
    }
  }

  /** Remapping [d, 1] onto [0, 1] gives (m - d) / (1 - d), which is
      non-negative for m >= d and at most 1 for m <= 1. */
  lemma UnitRemap(m: real, d: real)
    requires d < 1.0 && d <= m
    ensures MapRange(m, d, 1.0, 0.0, 1.0) == (m - d) / (1.0 - d)
    ensures 0.0 <= MapRange(m, d, 1.0, 0.0, 1.0)
    ensures d < m ==> 0.0 < MapRange(m, d, 1.0, 0.0, 1.0)
    ensures m <= 1.0 ==> MapRange(m, d, 1.0, 0.0, 1.0) <= 1.0
  {
    QuotientBounds(m - d, 1.0 - d);
  }

  /** `get_sign`: -1 for negative values, 1 for zero and positive ones. */
  function GetSign(v: real): (r: real)
    ensures r == -1.0 || r == 1.0
    ensures r == -1.0 <==> v < 0.0
  {
    if v < 0.0 then -1.0 else 1.0
  }

  /** The sign and the absolute value recompose the value. */
  lemma SignTimesAbs(v: real)
    ensures GetSign(v) * Abs(v) == v
  {
  }

  /** `dz_axial`: each component whose absolute value is below the deadzone is
      zeroed; the other is kept. */
  function DzAxial(v: Vec2, d: real): (r: Vec2)
    ensures Abs(v.x) < d ==> r.x == 0.0
    ensures Abs(v.x) >= d ==> r.x == v.x
    ensures Abs(v.y) < d ==> r.y == 0.0
    ensures Abs(v.y) >= d ==> r.y == v.y
  {
    var x := if Abs(v.x) < d then 0.0 else v.x;
    var y := if Abs(v.y) < d then 0.0 else v.y;
    Vec2(x, y)
  }

  /** Filtering an already filtered sample changes nothing. */
  lemma DzAxialIdempotent(v: Vec2, d: real)
    ensures DzAxial(DzAxial(v, d), d) == DzAxial(v, d)
  {
  }

  /** `dz_radial`: a sample inside the circular deadzone becomes zero; any
      other sample is returned unchanged. */
  function DzRadial(v: Vec2, d: real): (r: Vec2)
    ensures BelowDeadzone(v, d) ==> r == Zero
    ensures !BelowDeadzone(v, d) ==> r == v
  {
    if BelowDeadzone(v, d) then Zero else v
  }

  /** The square-root-free test agrees with `magnitude() < deadzone` for the
      magnitude of the sample, whatever the sign of the deadzone. */
  lemma BelowDeadzoneIsMagnitudeTest(v: Vec2, m: real, d: real)
    requires IsMagnitude(v, m)
    ensures m < d <==> BelowDeadzone(v, d)
  {
    if d > 0.0 {
      if m < d {
        calc {
          v.x * v.x + v.y * v.y;
          m * m;
        < { SquareMonotone(m, d); }
          d * d;
        }
      } else {
        calc {
          d * d;
        <= { SquareMonotone(d, m); }
          m * m;
          v.x * v.x + v.y * v.y;
        }
      }
    }
  }

  lemma DzRadialIdempotent(v: Vec2, d: real)
    ensures DzRadial(DzRadial(v, d), d) == DzRadial(v, d)
  {
  }

  /** The normalise-and-scale step of `dz_scaled_radial`: each component is
      divided by the magnitude and multiplied by the scale. */
  function Rescale(v: Vec2, m: real, scale: real): (r: Vec2)
    requires m != 0.0
  {
    Vec2(v.x / m * scale, v.y / m * scale)
  }

  /** `dz_scaled_radial`, with the sample's magnitude `m` supplied: inside the
      deadzone the result is zero; otherwise the sample is divided by its
      magnitude and scaled by `map_range(m, d, 1, 0, 1)`.  A deadzone of
      exactly 1 (the remap's range is empty) or a zero magnitude (the
      normalisation divides by it) raises ZeroDivisionError. */
  function DzScaledRadial(v: Vec2, d: real, m: real): (r: Result<Vec2, Error>)
    requires IsMagnitude(v, m)
    ensures m < d ==> r == Ok(Zero)
    ensures r.Err? <==> m >= d && (d == 1.0 || m == 0.0)
    ensures r.Err? ==> r.error == ZeroDivisionError
    ensures m >= d && d != 1.0 && m != 0.0 ==> r == Ok(Rescale(v, m, MapRange(m, d, 1.0, 0.0, 1.0)))
  {
    if m < d then Ok(Zero)
    else if d == 1.0 then Err(ZeroDivisionError)
    else
      var scale := MapRange(m, d, 1.0, 0.0, 1.0);
      if m == 0.0 then Err(ZeroDivisionError)
      else Ok(Rescale(v, m, scale))
  }

  /** Outside the deadzone the scaled radial result points the same way as the
      sample (it is parallel to it, with the same orientation) and its
      magnitude is the remapped input magnitude (m - d) / (1 - d). */
  lemma ScaledRadialMagnitude(v: Vec2, d: real, m: real)
    requires IsMagnitude(v, m) && 0.0 <= d < 1.0 && m >= d && m > 0.0
    ensures DzScaledRadial(v, d, m).Ok?
    ensures IsMagnitude(DzScaledRadial(v, d, m).value, (m - d) / (1.0 - d))
    ensures DzScaledRadial(v, d, m).value.x * v.y == DzScaledRadial(v, d, m).value.y * v.x
    ensures DzScaledRadial(v, d, m).value.x * v.x + DzScaledRadial(v, d, m).value.y * v.y >= 0.0
  {
    var s := MapRange(m, d, 1.0, 0.0, 1.0);
    UnitRemap(m, d);
    RescaleMagnitude(v, m, s);
  }

  /** Normalising a vector of magnitude m and scaling it by s >= 0 gives one of
      magnitude s, parallel to it and with the same orientation. */
  lemma RescaleMagnitude(v: Vec2, m: real, s: real)
    requires IsMagnitude(v, m) && m > 0.0 && s >= 0.0
    ensures IsMagnitude(Rescale(v, m, s), s)
    ensures Rescale(v, m, s).x * v.y == Rescale(v, m, s).y * v.x
    ensures Rescale(v, m, s).x * v.x + Rescale(v, m, s).y * v.y >= 0.0
  {
    var k := s / m;
    QuotientBounds(s, m);
    DivThenMul(v.x, m, s);
    DivThenMul(v.y, m, s);
    MulDivCancel(s, m);
    ScaledVector(v, m, k, Rescale(v, m, s), s);
  }

  /** Scaling a vector of magnitude m by k >= 0 gives one of magnitude k * m,
      parallel to it and with the same orientation. */
  lemma ScaledVector(v: Vec2, m: real, k: real, w: Vec2, n: real)
    requires IsMagnitude(v, m) && k >= 0.0 && w == Vec2(k * v.x, k * v.y) && n == k * m
    ensures IsMagnitude(w, n)
    ensures w.x * v.y == w.y * v.x
    ensures w.x * v.x + w.y * v.y >= 0.0
  {
    MulMonotone(0.0, k, m);
    ScaleSquares(v.x, v.y, k);
    ProductSquare(k, m);
    SquareNonNegative(m);
    MulMonotone(0.0, k, m * m);
    calc {
      w.x * w.x + w.y * w.y;
      (k * k) * (v.x * v.x + v.y * v.y);
      (k * k) * (m * m);
      n * n;
    }
    calc {
      w.x * v.x + w.y * v.y;
      k * (v.x * v.x + v.y * v.y);
      k * (m * m);
    >= 0.0;
    }
  }

  /** A sample of magnitude exactly 1 comes back unchanged. */
  lemma ScaledRadialUnitRoundTrip(v: Vec2, d: real)
    requires IsMagnitude(v, 1.0) && 0.0 <= d < 1.0
    ensures DzScaledRadial(v, d, 1.0) == Ok(v)
  {
    MapRangeEndpoints(d, 1.0, 0.0, 1.0);
  }

  /** No jump at the boundary: a sample whose magnitude equals the deadzone maps
      to zero, exactly as the samples just inside it do. */
  lemma ScaledRadialContinuousAtBoundary(v: Vec2, d: real)
    requires IsMagnitude(v, d) && 0.0 < d < 1.0
    ensures DzScaledRadial(v, d, d) == Ok(Zero)
  {
  }

  /** `dz_sloped_axial`: the threshold of each component is the deadzone times
      the absolute value of the OTHER original component; a component below its
      threshold is zeroed, otherwise kept. */
  function DzSlopedAxial(v: Vec2, d: real): (r: Vec2)
    ensures Abs(v.x) < SlopedThreshold(d, v.y) ==> r.x == 0.0
    ensures Abs(v.x) >= SlopedThreshold(d, v.y) ==> r.x == v.x
    ensures Abs(v.y) < SlopedThreshold(d, v.x) ==> r.y == 0.0
    ensures Abs(v.y) >= SlopedThreshold(d, v.x) ==> r.y == v.y
  {
    var deadzoneX := SlopedThreshold(d, v.y);
    var deadzoneY := SlopedThreshold(d, v.x);
    var x := if Abs(v.x) < deadzoneX then 0.0 else v.x;
    var y := if Abs(v.y) < deadzoneY then 0.0 else v.y;
    Vec2(x, y)
  }

  /** With a deadzone of at most 1 the sloped deadzone never collapses a
      non-zero sample to zero: it zeroes at most one component, and only the
      smaller one. */
  lemma SlopedAxialKeepsNonZero(v: Vec2, d: real)
    requires 0.0 <= d <= 1.0 && v != Zero
    ensures DzSlopedAxial(v, d) != Zero
  {
    var ax, ay := Abs(v.x), Abs(v.y);
    var tx, ty := d * ay, d * ax;
    MulMonotone(d, 1.0, ax);
    MulMonotone(d, 1.0, ay);
    assert tx <= ay && ty <= ax;
    var r := DzSlopedAxial(v, d);
    if ax < tx {
      assert ay > 0.0;
      assert !(ay < ty);
      assert r.y == v.y;
    } else {
      assert r.x == v.x;
      if v.x == 0.0 {
        assert ay > 0.0;
        assert !(ay < ty);
        assert r.y == v.y;
      }
    }
  }

  /** One component of `dz_sloped_scaled_axial`: a value strictly above its
      threshold is remapped from [threshold, 1] to [0, 1] and given its
      original sign; any other value is kept as it is. */
  function SlopedScaledComponent(c: real, threshold: real): (r: Result<real, Error>)
    ensures Abs(c) <= threshold ==> r == Ok(c)
    ensures r.Err? <==> Abs(c) > threshold && threshold == 1.0
    ensures r.Err? ==> r.error == ZeroDivisionError
    ensures r.Ok? && Abs(c) > threshold ==>
              r.value == GetSign(c) * MapRange(Abs(c), threshold, 1.0, 0.0, 1.0)
  {
    if Abs(c) > threshold then
      if threshold == 1.0 then Err(ZeroDivisionError)
      else Ok(GetSign(c) * MapRange(Abs(c), threshold, 1.0, 0.0, 1.0))
    else Ok(c)
  }

  /** A remapped component is non-zero and keeps the sign of the input when its
      threshold is below 1; and it stays within [-1, 1] when the input does. */
  lemma SlopedScaledComponentSign(c: real, threshold: real)
    requires threshold < 1.0 && Abs(c) > threshold
    ensures SlopedScaledComponent(c, threshold).Ok?
    ensures var r := SlopedScaledComponent(c, threshold).value;
            r != 0.0 && GetSign(r) == GetSign(c) && (Abs(c) <= 1.0 ==> Abs(r) <= 1.0)
  {
    var u := MapRange(Abs(c), threshold, 1.0, 0.0, 1.0);
    UnitRemap(Abs(c), threshold);
    var r := SlopedScaledComponent(c, threshold).value;
    assert r == GetSign(c) * u;
  }

  /** `dz_sloped_scaled_axial`: the threshold of each component is the deadzone
      times the absolute value of the OTHER original component.  A component
      not above its threshold is kept; one above it becomes its sign times its
      remap from [threshold, 1] onto [0, 1]; a component above a threshold of
      exactly 1 raises ZeroDivisionError. */
  function DzSlopedScaledAxial(v: Vec2, d: real): (r: Result<Vec2, Error>)
    ensures r.Err? <==>
      || (Abs(v.x) > SlopedThreshold(d, v.y) && SlopedThreshold(d, v.y) == 1.0)
      || (Abs(v.y) > SlopedThreshold(d, v.x) && SlopedThreshold(d, v.x) == 1.0)
    ensures r.Err? ==> r.error == ZeroDivisionError
    ensures r.Ok? && Abs(v.x) <= SlopedThreshold(d, v.y) ==> r.value.x == v.x
    ensures r.Ok? && Abs(v.y) <= SlopedThreshold(d, v.x) ==> r.value.y == v.y
    ensures r.Ok? && Abs(v.x) > SlopedThreshold(d, v.y) ==>
              && SlopedThreshold(d, v.y) != 1.0
              && r.value.x == GetSign(v.x) * MapRange(Abs(v.x), SlopedThreshold(d, v.y), 1.0, 0.0, 1.0)
    ensures r.Ok? && Abs(v.y) > SlopedThreshold(d, v.x) ==>
              && SlopedThreshold(d, v.x) != 1.0
              && r.value.y == GetSign(v.y) * MapRange(Abs(v.y), SlopedThreshold(d, v.x), 1.0, 0.0, 1.0)
  {
    SlopedScaledPair(v, SlopedThreshold(d, v.y), SlopedThreshold(d, v.x))
  }

  /** The threshold a sloped deadzone derives from the other component:
      `deadzone * abs(other)`. */
  function SlopedThreshold(d: real, other: real): (t: real) {
    d * Abs(other)
  }

  /** Both components of `dz_sloped_scaled_axial` for given thresholds: the
      result is an error exactly when one component's remap divides by zero
      (x is processed first, so its error is the one raised), and otherwise
      the pair of the two processed components. */
  function SlopedScaledPair(v: Vec2, thresholdX: real, thresholdY: real): (r: Result<Vec2, Error>)
    ensures r.Err? <==>
      SlopedScaledComponent(v.x, thresholdX).Err? || SlopedScaledComponent(v.y, thresholdY).Err?
    ensures r.Err? ==> r.error == ZeroDivisionError
    ensures r.Ok? ==>
              r.value == Vec2(SlopedScaledComponent(v.x, thresholdX).value,
                              SlopedScaledComponent(v.y, thresholdY).value)
  {
    var sx := SlopedScaledComponent(v.x, thresholdX);
    if sx.Err? then Err(sx.error)
    else
      var sy := SlopedScaledComponent(v.y, thresholdY);
      if sy.Err? then Err(sy.error)
      else Ok(Vec2(sx.value, sy.value))
  }

  /** With thresholds in [0, 1) a sample in the unit square stays in it. */
  lemma SlopedScaledPairInUnitSquare(v: Vec2, thresholdX: real, thresholdY: real)
    requires 0.0 <= thresholdX < 1.0 && 0.0 <= thresholdY < 1.0
    requires InUnitSquare(v)
    ensures SlopedScaledPair(v, thresholdX, thresholdY).Ok?
    ensures InUnitSquare(SlopedScaledPair(v, thresholdX, thresholdY).value)
  {
    SlopedScaledComponentInRange(v.x, thresholdX);
    SlopedScaledComponentInRange(v.y, thresholdY);
  }

  /** One component of the transform, for a threshold in [0, 1) and a value in
      [-1, 1]: defined, unchanged when not above the threshold, non-zero with
      the original sign when remapped, and within [-1, 1]. */
  lemma SlopedScaledComponentInRange(c: real, threshold: real)
    requires 0.0 <= threshold < 1.0 && Abs(c) <= 1.0
    ensures SlopedScaledComponent(c, threshold).Ok?
    ensures var r := SlopedScaledComponent(c, threshold).value;
      && (Abs(c) <= threshold ==> r == c)
      && (Abs(c) > threshold ==> r != 0.0 && GetSign(r) == GetSign(c))
      && Abs(r) <= 1.0
  {
    if Abs(c) > threshold {
      SlopedScaledComponentSign(c, threshold);
    }
  }

  /** For a deadzone in [0, 1) and a sample in the unit square the transform
      never raises and its result stays in the unit square; what happens to
      each component is stated by SlopedScaledComponentInRange. */
  lemma SlopedScaledAxialInUnitSquare(v: Vec2, d: real)
    requires 0.0 <= d < 1.0 && InUnitSquare(v)
    ensures DzSlopedScaledAxial(v, d).Ok?
    ensures InUnitSquare(DzSlopedScaledAxial(v, d).value)
  {
    ThresholdBelowOne(d, v.y);
    ThresholdBelowOne(d, v.x);
    SlopedScaledPairInUnitSquare(v, SlopedThreshold(d, v.y), SlopedThreshold(d, v.x));
  }

  lemma ThresholdBelowOne(d: real, other: real)
    requires 0.0 <= d < 1.0 && Abs(other) <= 1.0
    ensures 0.0 <= SlopedThreshold(d, other) < 1.0
  {
    var a := Abs(other);
    MulMonotone(0.0, a, d);
    MulMonotone(a, 1.0, d);
  }

  /** `dz_hybrid`, with the sample's magnitude `m` supplied: zero inside the
      deadzone, otherwise the scaled radial result passed through the sloped
      scaled axial transform; either stage's ZeroDivisionError propagates. */
  function DzHybrid(v: Vec2, d: real, m: real): (r: Result<Vec2, Error>)
    requires IsMagnitude(v, m)
    ensures m < d ==> r == Ok(Zero)
    ensures m >= d && DzScaledRadial(v, d, m).Err? ==> r == DzScaledRadial(v, d, m)
    ensures m >= d && DzScaledRadial(v, d, m).Ok? ==>
              r == DzSlopedScaledAxial(DzScaledRadial(v, d, m).value, d)
  {
    if m < d then Ok(Zero)
    else
      var partial := DzScaledRadial(v, d, m);
      if partial.Err? then partial
      else DzSlopedScaledAxial(partial.value, d)
  }

  /** Each component is bounded by the magnitude. */
  lemma ComponentsBoundedByMagnitude(v: Vec2, m: real)
    requires IsMagnitude(v, m)
    ensures Abs(v.x) <= m && Abs(v.y) <= m
  {
    SquareNonNegative(v.x);
    SquareNonNegative(v.y);
    SquareBound(v.x, v.y * v.y, m);
    SquareBound(v.y, v.x * v.x, m);
  }

  lemma SquareBound(c: real, rest: real, m: real)
    requires m >= 0.0 && rest >= 0.0 && m * m == c * c + rest
    ensures Abs(c) <= m
  {
    SquareMonotoneConverse(Abs(c), m);
  }

  /** For a deadzone in [0, 1) and a non-zero sample inside the unit disk that
      is not inside the deadzone, the hybrid transform never raises and its
      result lies in the unit square. */
  lemma HybridDefinedInUnitDisk(v: Vec2, d: real, m: real)
    requires IsMagnitude(v, m) && 0.0 <= d < 1.0 && d <= m <= 1.0 && m > 0.0
    ensures DzHybrid(v, d, m).Ok?
    ensures InUnitSquare(DzHybrid(v, d, m).value)
  {
    ScaledRadialMagnitude(v, d, m);
    var p := DzScaledRadial(v, d, m).value;
    UnitRemap(m, d);
    var s := (m - d) / (1.0 - d);
    ComponentsBoundedByMagnitude(p, s);
    SlopedScaledAxialInUnitSquare(p, d);
  }

  /** The worked examples of the transforms. */
  lemma Examples()
    ensures DzAxial(Vec2(0.05, 0.6), 0.1) == Vec2(0.0, 0.6)
    ensures DzRadial(Vec2(0.05, 0.05), 0.1) == Zero
    ensures DzScaledRadial(Vec2(0.5, 0.0), 0.1, 0.5) == Ok(Vec2(4.0 / 9.0, 0.0))
  {
  }
}
