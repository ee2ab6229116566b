/**
 * The bisection shared by createFromPoint and createFromQuadTreeString: four running bounds
 * that start at the whole world and move to the midpoint, one bound per axis and step.
 */
module Bisection {
  import opened Wgs84
  import opened Syntax

  /**
   * How a midpoint sum is computed. JavaInt is the source as written: the sum of two `int`
   * bounds wraps around at 32 bits. Widened is the evidently intended arithmetic (a `long`
   * sum), kept beside it to state what the wrap-around breaks.
   */
  datatype MidpointArithmetic = JavaInt | Widened

  /** Java's `x / 2` on integers: truncation toward zero. */
  function JavaDiv2(x: int): (r: int)
    ensures x >= 0 ==> 0 <= 2 * r <= x < 2 * r + 2
    ensures x < 0 ==> 2 * r - 2 < x <= 2 * r <= 0
  {
    if x >= 0 then x / 2 else -((-x) / 2)
  }

  /** Two's complement wrap-around of a sum to a Java `int`. */
  function WrapInt32(x: int): (r: Int32)
    ensures (x - r) % 0x1_0000_0000 == 0
    ensures -0x8000_0000 <= x < 0x8000_0000 ==> r == x
  {
    (x + 0x8000_0000) % 0x1_0000_0000 - 0x8000_0000
  }

  /**
   * `(upper + lower) / 2` as the source evaluates it. Both arithmetics agree while the sum fits
   * in an `int`; with a widened sum the midpoint lies between ordered bounds.
   */
  function Mid(arith: MidpointArithmetic, upper: int, lower: int): (r: int)
    ensures -0x8000_0000 <= upper + lower < 0x8000_0000 ==> r == JavaDiv2(upper + lower)
    ensures arith == Widened && lower <= upper ==> lower <= r <= upper
  {
    match arith
    case JavaInt => JavaDiv2(WrapInt32(upper + lower))
    case Widened => JavaDiv2(upper + lower)
  }

  /** The four thresholds of the loops. */
  datatype Bounds = Bounds(latUpper: int, latLower: int, lonUpper: int, lonLower: int)

  const World: Bounds := Bounds(MAX_LATITUDE, MIN_LATITUDE, MAX_LONGITUDE, MIN_LONGITUDE)

  /** Every bound is a coordinate a Wgs84Point accepts. */
  predicate InWorld(b: Bounds) {
    InRange(b.latUpper, b.lonUpper) && InRange(b.latLower, b.lonLower)
  }

  predicate Encloses(b: Bounds, p: Wgs84Point) {
    b.latLower <= p.latitude <= b.latUpper && b.lonLower <= p.longitude <= b.lonUpper
  }

  /** Midpoints of bounds inside the world stay inside it, wrapped or not. */
  lemma MidStaysInWorld(arith: MidpointArithmetic, b: Bounds)
    ensures InWorld(b) ==> InRange(Mid(arith, b.latUpper, b.latLower), Mid(arith, b.lonUpper, b.lonLower))
  {
  }

  /** Latitude sums never exceed 1.8e9, so only longitude midpoints can wrap. */
  lemma LatitudeMidNeverWraps(b: Bounds)
    requires InWorld(b)
    ensures Mid(JavaInt, b.latUpper, b.latLower) == Mid(Widened, b.latUpper, b.latLower)
  {
  }

  /** One step of createFromPoint's loop: compare with both midpoints, move one bound per axis. */
  function Bisect(arith: MidpointArithmetic, b: Bounds, p: Wgs84Point): (r: Bounds)
    ensures InWorld(b) ==> InWorld(r)
    ensures Encloses(b, p) ==> Encloses(r, p)
  {
    MidStaysInWorld(arith, b);
    var latMid := Mid(arith, b.latUpper, b.latLower);
    var lonMid := Mid(arith, b.lonUpper, b.lonLower);
    Bounds(if p.latitude >= latMid then b.latUpper else latMid,
           if p.latitude >= latMid then latMid else b.latLower,
           if p.longitude >= lonMid then b.lonUpper else lonMid,
           if p.longitude >= lonMid then lonMid else b.lonLower)
  }

  /** One step of createFromQuadTreeString's loop: the letter says which bound per axis moves. */
  function Narrow(arith: MidpointArithmetic, b: Bounds, c: char): (r: Bounds)
    requires IsLetter(c)
    ensures InWorld(b) ==> InWorld(r)
  {
    MidStaysInWorld(arith, b);
    var latMid := Mid(arith, b.latUpper, b.latLower);
    var lonMid := Mid(arith, b.lonUpper, b.lonLower);
    Bounds(if LatBit(c) == 1 then latMid else b.latUpper,
           if LatBit(c) == 0 then latMid else b.latLower,
           if LonBit(c) == 0 then lonMid else b.lonUpper,
           if LonBit(c) == 1 then lonMid else b.lonLower)
  }

  /**
   * The letter createFromPoint appends for one step: the lower half when the latitude is below
   * the midpoint, the right half when the longitude is at or above it.
   */
  function Choose(arith: MidpointArithmetic, b: Bounds, p: Wgs84Point): (c: char)
    ensures IsLetter(c)
    ensures LatBit(c) == 1 <==> p.latitude < Mid(arith, b.latUpper, b.latLower)
    ensures LonBit(c) == 1 <==> p.longitude >= Mid(arith, b.lonUpper, b.lonLower)
  {
    Quadrant(p.latitude < Mid(arith, b.latUpper, b.latLower),
             p.longitude >= Mid(arith, b.lonUpper, b.lonLower))
  }

  /** Replaying the letter of a forward step moves exactly the bounds the forward step moved. */
  lemma NarrowReplaysBisect(arith: MidpointArithmetic, b: Bounds, p: Wgs84Point)
    ensures Narrow(arith, b, Choose(arith, b, p)) == Bisect(arith, b, p)
  {
  }

  /** The letters and the bounds after some steps of createFromPoint's loop. */
  datatype Walk = Walk(letters: string, bounds: Bounds)

  /**
   * The first n steps of createFromPoint for point p. Each step appends one letter, the bounds
   * stay inside the world and always enclose the point.
   */
  function Trail(arith: MidpointArithmetic, p: Wgs84Point, n: nat): (w: Walk)
    ensures |w.letters| == n && AllLetters(w.letters)
    ensures InWorld(w.bounds) && Encloses(w.bounds, p)
  {
    if n == 0 then Walk([], World)
    else
      var w := Trail(arith, p, n - 1);
      Walk(w.letters + [Choose(arith, w.bounds, p)], Bisect(arith, w.bounds, p))
  }

  /** The bounds createFromQuadTreeString reaches after reading the given letters. */
  function Replay(arith: MidpointArithmetic, letters: string): (b: Bounds)
    requires AllLetters(letters)
    ensures InWorld(b)
  {
    if letters == [] then World
    else Narrow(arith, Replay(arith, letters[..|letters| - 1]), letters[|letters| - 1])
  }

  /** One more step keeps the letters so far. */
  lemma TrailStep(arith: MidpointArithmetic, p: Wgs84Point, n: nat)
    requires n > 0
    ensures Trail(arith, p, n).letters[..n - 1] == Trail(arith, p, n - 1).letters
  {
    var w := Trail(arith, p, n - 1);
    assert Trail(arith, p, n).letters == w.letters + [Choose(arith, w.bounds, p)];
  }

  /** A shorter walk is a prefix of a longer one for the same point. */
  lemma {:induction false} TrailPrefix(arith: MidpointArithmetic, p: Wgs84Point, k: nat, n: nat)
    requires k <= n
    ensures Trail(arith, p, k).letters == Trail(arith, p, n).letters[..k]
    decreases n
  {
    var letters := Trail(arith, p, n).letters;
    if k < n {
      TrailPrefix(arith, p, k, n - 1);
      TrailStep(arith, p, n);
      assert letters[..n - 1][..k] == letters[..k];
    } else {
      assert letters[..n] == letters;
    }
  }

  /** Replaying the letters of a walk reaches exactly the bounds of the walk. */
  lemma {:induction false} ReplayTrail(arith: MidpointArithmetic, p: Wgs84Point, n: nat)
    ensures Replay(arith, Trail(arith, p, n).letters) == Trail(arith, p, n).bounds
  {
    if n > 0 {
      ReplayTrail(arith, p, n - 1);
      var w := Trail(arith, p, n - 1);
      NarrowReplaysBisect(arith, w.bounds, p);
      var letters := Trail(arith, p, n).letters;
      assert letters[..|letters| - 1] == w.letters;
    }
  }

  /** Replaying a prefix of a point's letters reaches bounds that enclose the point. */
  lemma ReplayPrefixEncloses(arith: MidpointArithmetic, p: Wgs84Point, letters: string, n: nat)
    requires |letters| <= n && letters == Trail(arith, p, n).letters[..|letters|]
    ensures AllLetters(letters) && Encloses(Replay(arith, letters), p)
  {
    TrailPrefix(arith, p, |letters|, n);
    ReplayTrail(arith, p, |letters|);
  }

  // ---------------------------------------------------------------------------------------
  // Widened midpoints: the properties that the 32-bit wrap-around breaks.

  predicate Ordered(b: Bounds) {
    b.latLower <= b.latUpper && b.lonLower <= b.lonUpper
  }

  function LatWidth(b: Bounds): int { b.latUpper - b.latLower }
  function LonWidth(b: Bounds): int { b.lonUpper - b.lonLower }

  /** With widened sums every step keeps lower <= upper and halves both widths, up to rounding. */
  lemma WidenedNarrowHalves(b: Bounds, c: char)
    requires IsLetter(c) && Ordered(b)
    ensures Ordered(Narrow(Widened, b, c))
    ensures LatWidth(b) - 1 <= 2 * LatWidth(Narrow(Widened, b, c)) <= LatWidth(b) + 1
    ensures LonWidth(b) - 1 <= 2 * LonWidth(Narrow(Widened, b, c)) <= LonWidth(b) + 1
  {
  }

  /** With widened sums every rectangle an address decodes to is well formed. */
  lemma {:induction false} WidenedReplayOrdered(letters: string)
    requires AllLetters(letters)
    ensures Ordered(Replay(Widened, letters))
  {
    if letters != [] {
      WidenedReplayOrdered(letters[..|letters| - 1]);
      WidenedNarrowHalves(Replay(Widened, letters[..|letters| - 1]), letters[|letters| - 1]);
    }
  }

  /** With widened sums each step of createFromPoint halves the tile, up to rounding. */
  lemma WidenedTrailHalves(p: Wgs84Point, n: nat)
    requires n >= 1
    ensures var before := Trail(Widened, p, n - 1).bounds;
            var after := Trail(Widened, p, n).bounds;
            && LatWidth(before) - 1 <= 2 * LatWidth(after) <= LatWidth(before) + 1
            && LonWidth(before) - 1 <= 2 * LonWidth(after) <= LonWidth(before) + 1
  {
    var w := Trail(Widened, p, n - 1);
    WidenedNarrowHalves(w.bounds, Choose(Widened, w.bounds, p));
  }

  /**
   * As written, the longitude sum 900000000 + 1800000000 wraps, so at depth 3 the tile of a
   * point at 180° widens from 900000000 to 2597483648 units instead of halving.
   */
  lemma JavaIntTileWidens()
    ensures var p: Wgs84Point := Point(0, MAX_LONGITUDE);
            && LonWidth(Trail(JavaInt, p, 2).bounds) == 900000000
            && Trail(JavaInt, p, 3).bounds.lonLower == -797483648
            && LonWidth(Trail(JavaInt, p, 3).bounds) == 2597483648
  {
    var p: Wgs84Point := Point(0, MAX_LONGITUDE);
    var b1 := Bounds(MAX_LATITUDE, 0, MAX_LONGITUDE, 0);
    var b2 := Bounds(450000000, 0, MAX_LONGITUDE, 900000000);
    var b3 := Bounds(225000000, 0, MAX_LONGITUDE, -797483648);
    assert Bisect(JavaInt, World, p) == b1;
    assert Bisect(JavaInt, b1, p) == b2;
    assert WrapInt32(2700000000) == -1594967296;
    assert Bisect(JavaInt, b2, p) == b3;
    assert Trail(JavaInt, p, 1).bounds == b1;
    assert Trail(JavaInt, p, 2).bounds == b2;
    assert Trail(JavaInt, p, 3).bounds == b3;
  }

  /** As written, the letters B, B, A decode to a longitude range whose lower bound exceeds its upper one. */
  lemma JavaIntInvertedRange()
    ensures AllLetters("BBA")
    ensures Replay(JavaInt, "BBA").lonLower == 900000000
    ensures Replay(JavaInt, "BBA").lonUpper == -797483648
  {
    assert "BBA"[..2] == "BB" && "BB"[..1] == "B" && "B"[..0] == "";
  }
}
