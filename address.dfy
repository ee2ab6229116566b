/**
 * The address value: the string plus the four corners and the centre derived from it, the two
 * factories, containment, shortening and equality.
 */
module Address {
  import opened Failures
  import opened Wgs84
  import opened Syntax
  import opened Bisection

  /** An immutable address; the corners and the centre are a view computed from the string. */
  datatype QuadTreeAddress = QuadTreeAddress(
    quadTree: string,
    upperLeft: Wgs84Point,
    upperRight: Wgs84Point,
    lowerLeft: Wgs84Point,
    lowerRight: Wgs84Point,
    center: Wgs84Point)

  /** The corners and the centre of the final bounds; every one passes the point range check. */
  function Rectangle(arith: MidpointArithmetic, quadTree: string, b: Bounds): (a: QuadTreeAddress)
    requires InWorld(b)
    ensures a.quadTree == quadTree
    ensures a.upperLeft.latitude == a.upperRight.latitude == b.latUpper
    ensures a.lowerLeft.latitude == a.lowerRight.latitude == b.latLower
    ensures a.upperLeft.longitude == a.lowerLeft.longitude == b.lonLower
    ensures a.upperRight.longitude == a.lowerRight.longitude == b.lonUpper
    ensures a.center.latitude == Mid(arith, b.latUpper, b.latLower)
    ensures a.center.longitude == Mid(arith, b.lonUpper, b.lonLower)
    ensures arith == Widened && Ordered(b) ==> CornersEnclose(a, a.center)
  {
    MidStaysInWorld(arith, b);
    QuadTreeAddress(quadTree,
      Point(b.latUpper, b.lonLower), Point(b.latUpper, b.lonUpper),
      Point(b.latLower, b.lonLower), Point(b.latLower, b.lonUpper),
      Point(Mid(arith, b.latUpper, b.latLower), Mid(arith, b.lonUpper, b.lonLower)))
  }

  /** The point lies between the corners of the address. */
  predicate CornersEnclose(a: QuadTreeAddress, p: Wgs84Point) {
    && a.lowerLeft.latitude <= p.latitude <= a.upperLeft.latitude
    && a.upperLeft.longitude <= p.longitude <= a.upperRight.longitude
  }

  /**
   * What createFromPoint yields: depth outside [1, MAX_DEPTH] is refused; otherwise the string
   * has exactly `depth` letters after the start character.
   */
  function FromPoint(arith: MidpointArithmetic, p: Wgs84Point, depth: int): (r: Result<QuadTreeAddress>)
    ensures r.Success? <==> 1 <= depth <= MAX_DEPTH
    ensures r.Failure? ==> r.error == InvalidDepth
    ensures r.Success? ==> |r.value.quadTree| == depth + 1
  {
    if depth < 1 || depth > MAX_DEPTH then Failure(InvalidDepth)
    else
      var w := Trail(arith, p, depth);
      Success(Rectangle(arith, [START_CHAR] + w.letters, w.bounds))
  }

  /** What createFromQuadTreeString yields: invalid strings are refused, others keep their text. */
  function FromQuadTreeString(arith: MidpointArithmetic, quadTree: string): (r: Result<QuadTreeAddress>)
    ensures r.Success? <==> IsValid(quadTree)
    ensures r.Failure? ==> r.error == InvalidQuadTree
    ensures r.Success? ==> r.value.quadTree == quadTree
  {
    if !IsValid(quadTree) then Failure(InvalidQuadTree)
    else Success(Rectangle(arith, quadTree, Replay(arith, quadTree[1..])))
  }

  /** The string of a point's address is valid, of the requested depth, and its corners enclose the point. */
  lemma FromPointShape(arith: MidpointArithmetic, p: Wgs84Point, depth: int)
    requires 1 <= depth <= MAX_DEPTH
    ensures IsValid(FromPoint(arith, p, depth).value.quadTree)
    ensures GetDepth(FromPoint(arith, p, depth).value.quadTree) == Success(depth)
    ensures CornersEnclose(FromPoint(arith, p, depth).value, p)
  {
    var letters := Trail(arith, p, depth).letters;
    assert forall i :: 1 <= i < |letters| + 1 ==> ([START_CHAR] + letters)[i] == letters[i - 1];
  }

  /** An accepted depth yields the rectangle of the walk of that many steps. */
  lemma FromPointOfTrail(arith: MidpointArithmetic, p: Wgs84Point, depth: int)
    requires 1 <= depth <= MAX_DEPTH
    ensures var w := Trail(arith, p, depth);
      FromPoint(arith, p, depth) == Success(Rectangle(arith, [START_CHAR] + w.letters, w.bounds))
  {
  }

  /** One more step of createFromPoint's loop appends the chosen letter and bisects the bounds. */
  lemma TrailNext(arith: MidpointArithmetic, p: Wgs84Point, i: nat)
    ensures var w := Trail(arith, p, i);
      Trail(arith, p, i + 1) == Walk(w.letters + [Choose(arith, w.bounds, p)], Bisect(arith, w.bounds, p))
  {
  }

  /** The four bounds after one step of createFromPoint's loop are the bisected ones. */
  lemma BisectStep(arith: MidpointArithmetic, b: Bounds, p: Wgs84Point, latMid: int, lonMid: int, after: Bounds)
    requires latMid == Mid(arith, b.latUpper, b.latLower) && lonMid == Mid(arith, b.lonUpper, b.lonLower)
    requires after.latUpper == (if p.latitude >= latMid then b.latUpper else latMid)
    requires after.latLower == (if p.latitude >= latMid then latMid else b.latLower)
    requires after.lonUpper == (if p.longitude >= lonMid then b.lonUpper else lonMid)
    requires after.lonLower == (if p.longitude >= lonMid then lonMid else b.lonLower)
    ensures after == Bisect(arith, b, p)
  {
  }

  /** The two per-axis sectors of one createFromPoint step add up to the code of the chosen letter. */
  lemma SectorOfLetter(arith: MidpointArithmetic, b: Bounds, p: Wgs84Point, latSector: int, lonSector: int)
    requires latSector == if p.latitude >= Mid(arith, b.latUpper, b.latLower) then 0 else 2
    requires lonSector == if p.longitude >= Mid(arith, b.lonUpper, b.lonLower) then 1 else 0
    ensures latSector + lonSector == Code(Choose(arith, b, p))
  {
  }

  /** The letter appended for a 3-bit sector value; the sectors a step builds are 0 to 3. */
  method QuadrantOfSector(sector: int) returns (quadrant: char)
    requires 0 <= sector < 4
    ensures quadrant == LetterOf(sector)
  {
    if sector == 0 {
      quadrant := I;
    } else if sector == 1 {
      quadrant := II;
    } else if sector == 2 {
      quadrant := III;
    } else {
      quadrant := IV;
    }
  }

  /** Appending to a string leaves its first character and appends to the rest. */
  lemma AppendAfterStart(s: string, c: char)
    requires |s| >= 1
    ensures (s + [c])[0] == s[0] && (s + [c])[1..] == s[1..] + [c]
  {
  }

  /**
   * One pass of createFromPoint's loop: halve both axes at their midpoints, keep the half holding
   * the point, and name the kept quadrant.
   */
  method BisectOnce(arith: MidpointArithmetic, point: Wgs84Point, latUpper: int, latLower: int, lonUpper: int, lonLower: int)
    returns (quadrant: char, latUpper': int, latLower': int, lonUpper': int, lonLower': int)
    ensures var before := Bounds(latUpper, latLower, lonUpper, lonLower);
      && quadrant == Choose(arith, before, point)
      && Bounds(latUpper', latLower', lonUpper', lonLower') == Bisect(arith, before, point)
  {
    ghost var before := Bounds(latUpper, latLower, lonUpper, lonLower);
    latUpper', latLower', lonUpper', lonLower' := latUpper, latLower, lonUpper, lonLower;
    var latThreshold := Mid(arith, latUpper, latLower);
    var lonThreshold := Mid(arith, lonUpper, lonLower);
    var latCurrentSector, lonCurrentSector;
    if point.latitude >= latThreshold {
      latLower' := latThreshold;
      latCurrentSector := 0;
    } else {
      latUpper' := latThreshold;
      latCurrentSector := 2;
    }
    if point.longitude >= lonThreshold {
      lonLower' := lonThreshold;
      lonCurrentSector := 1;
    } else {
      lonUpper' := lonThreshold;
      lonCurrentSector := 0;
    }
    BisectStep(arith, before, point, latThreshold, lonThreshold, Bounds(latUpper', latLower', lonUpper', lonLower'));
    // the two sectors occupy different bits, so `|` is a sum
    var sector := latCurrentSector + lonCurrentSector;
    SectorOfLetter(arith, before, point, latCurrentSector, lonCurrentSector);
    quadrant := QuadrantOfSector(sector);
    CodeIsInjective(Choose(arith, before, point));
  }

  /** createFromPoint: the bisection loop over four running bounds. */
  method CreateFromPoint(arith: MidpointArithmetic, point: Wgs84Point, depth: Int32)
    returns (r: Result<QuadTreeAddress>)
    ensures r == FromPoint(arith, point, depth)
  {
    if depth < 1 || depth > MAX_DEPTH {
      return Failure(InvalidDepth);
    }
    var quadTreeString := [START_CHAR];
    var latUpper, latLower := MAX_LATITUDE, MIN_LATITUDE;
    var lonUpper, lonLower := MAX_LONGITUDE, MIN_LONGITUDE;
    for i := 0 to depth
      invariant |quadTreeString| == i + 1 && quadTreeString[0] == START_CHAR
      invariant quadTreeString[1..] == Trail(arith, point, i).letters
      invariant Bounds(latUpper, latLower, lonUpper, lonLower) == Trail(arith, point, i).bounds
    {
      TrailNext(arith, point, i);
      var quadrant;
      quadrant, latUpper, latLower, lonUpper, lonLower := BisectOnce(arith, point, latUpper, latLower, lonUpper, lonLower);
      AppendAfterStart(quadTreeString, quadrant);
      quadTreeString := quadTreeString + [quadrant];
    }
    assert quadTreeString == [START_CHAR] + quadTreeString[1..];
    FromPointOfTrail(arith, point, depth);
    r := Success(Rectangle(arith, quadTreeString, Bounds(latUpper, latLower, lonUpper, lonLower)));
  }

  /** Replaying one more letter narrows the bounds reached so far by that letter. */
  lemma ReplayStep(arith: MidpointArithmetic, quadTree: string, i: nat)
    requires IsValid(quadTree) && 1 <= i < |quadTree|
    ensures Replay(arith, quadTree[1..i + 1]) == Narrow(arith, Replay(arith, quadTree[1..i]), quadTree[i])
  {
    assert quadTree[1..i + 1][..i - 1] == quadTree[1..i];
  }

  /** createFromQuadTreeString: validation, then the same bound updates driven by the letters. */
  method CreateFromQuadTreeString(arith: MidpointArithmetic, quadTree: string)
    returns (r: Result<QuadTreeAddress>)
    ensures r == FromQuadTreeString(arith, quadTree)
  {
    if !IsValid(quadTree) {
      return Failure(InvalidQuadTree);
    }
    var latUpper, latLower := MAX_LATITUDE, MIN_LATITUDE;
    var lonUpper, lonLower := MAX_LONGITUDE, MIN_LONGITUDE;
    for i := 1 to |quadTree|
      invariant Bounds(latUpper, latLower, lonUpper, lonLower) == Replay(arith, quadTree[1..i])
    {
      ghost var before := Bounds(latUpper, latLower, lonUpper, lonLower);
      ReplayStep(arith, quadTree, i);
      var centerLat := Mid(arith, latUpper, latLower);
      var centerLon := Mid(arith, lonUpper, lonLower);
      var quadTreeSector := quadTree[i];
      if quadTreeSector == I {
        latLower := centerLat;
        lonUpper := centerLon;
      } else if quadTreeSector == II {
        latLower := centerLat;
        lonLower := centerLon;
      } else if quadTreeSector == III {
        latUpper := centerLat;
        lonUpper := centerLon;
      } else {
        // IV: validation has excluded every other character
        latUpper := centerLat;
        lonLower := centerLon;
      }
      assert Bounds(latUpper, latLower, lonUpper, lonLower) == Narrow(arith, before, quadTreeSector);
    }
    assert quadTree[1..|quadTree|] == quadTree[1..];
    r := Success(Rectangle(arith, quadTree, Bounds(latUpper, latLower, lonUpper, lonLower)));
  }

  /**
   * Decoding the string of a point's address rebuilds the same address: the same four bounds,
   * hence the same corners and centre.
   */
  lemma FromPointRoundTrip(arith: MidpointArithmetic, p: Wgs84Point, depth: int)
    requires 1 <= depth <= MAX_DEPTH
    ensures FromQuadTreeString(arith, FromPoint(arith, p, depth).value.quadTree) == FromPoint(arith, p, depth)
  {
    var w := Trail(arith, p, depth);
    assert ([START_CHAR] + w.letters)[1..] == w.letters;
    ReplayTrail(arith, p, depth);
  }

  /** A shallower address of a point is a prefix of a deeper one. */
  lemma FromPointPrefix(arith: MidpointArithmetic, p: Wgs84Point, k: int, depth: int)
    requires 1 <= k <= depth <= MAX_DEPTH
    ensures FromPoint(arith, p, k).value.quadTree == FromPoint(arith, p, depth).value.quadTree[..k + 1]
  {
    TrailPrefix(arith, p, k, depth);
  }

  /** `String.contains`: `part` occurs somewhere in `whole`. */
  function OccursIn(part: string, whole: string): (r: bool)
    ensures r ==> |part| <= |whole|
    ensures IsPrefix(part, whole) ==> r
  {
    assert IsPrefix(part, whole) ==> OccursAt(part, whole, 0);
    exists k | 0 <= k <= |whole| - |part| :: OccursAt(part, whole, k)
  }

  predicate OccursAt(part: string, whole: string, k: int)
    requires 0 <= k <= |whole| - |part|
  {
    whole[k..k + |part|] == part
  }

  predicate IsPrefix(part: string, whole: string) {
    |part| <= |whole| && whole[..|part|] == part
  }

  /** Between valid strings an occurrence can only start at index 0, where the start character is. */
  lemma OccursInValidIsPrefix(part: string, whole: string)
    requires IsValid(part) && IsValid(whole)
    ensures OccursIn(part, whole) <==> IsPrefix(part, whole)
  {
    if OccursIn(part, whole) {
      var k :| 0 <= k <= |whole| - |part| && OccursAt(part, whole, k);
      assert whole[k] == part[0] == START_CHAR;
      StartCharOnlyFirst(whole, k);
    }
    if IsPrefix(part, whole) {
      assert OccursAt(part, whole, 0);
    }
  }

  /**
   * `contains(quadTree, otherQuadTree)`: both strings must be valid; the answer is whether
   * otherQuadTree lies within quadTree, which is whether quadTree is a prefix of it.
   */
  function Contains(quadTree: string, otherQuadTree: string): (r: Result<bool>)
    ensures r.Success? <==> IsValid(quadTree) && IsValid(otherQuadTree)
    ensures r.Failure? ==> r.error == InvalidQuadTree
    ensures r.Success? ==> (r.value <==> IsPrefix(quadTree, otherQuadTree))
  {
    if !IsValid(quadTree) || !IsValid(otherQuadTree) then Failure(InvalidQuadTree)
    else
      OccursInValidIsPrefix(quadTree, otherQuadTree);
      Success(OccursIn(quadTree, otherQuadTree))
  }

  /**
   * `contains(quadTree, point)`: the string must be valid; the answer is whether it is a prefix
   * of the point's address at MAX_DEPTH.
   */
  function ContainsPoint(arith: MidpointArithmetic, quadTree: string, p: Wgs84Point): (r: Result<bool>)
    ensures r.Success? <==> IsValid(quadTree)
    ensures r.Failure? ==> r.error == InvalidQuadTree
    ensures r.Success? ==> (r.value <==> IsPrefix(quadTree, FromPoint(arith, p, MAX_DEPTH).value.quadTree))
  {
    if !IsValid(quadTree) then Failure(InvalidQuadTree)
    else
      var quadTreeOfPoint := FromPoint(arith, p, MAX_DEPTH).value.quadTree;
      OccursInValidIsPrefix(quadTree, quadTreeOfPoint);
      Success(OccursIn(quadTree, quadTreeOfPoint))
  }

  /** An address that contains a point encloses it between its corners. */
  lemma ContainedPointIsEnclosed(arith: MidpointArithmetic, quadTree: string, p: Wgs84Point)
    requires ContainsPoint(arith, quadTree, p) == Success(true)
    ensures FromQuadTreeString(arith, quadTree).Success?
    ensures CornersEnclose(FromQuadTreeString(arith, quadTree).value, p)
  {
    var w := Trail(arith, p, MAX_DEPTH);
    var letters := quadTree[1..];
    assert ([START_CHAR] + w.letters)[..|quadTree|][1..] == w.letters[..|letters|];
    ReplayPrefixEncloses(arith, p, letters, MAX_DEPTH);
  }

  /**
   * `shortenToDepth`: the first `depth` letters of a valid string, or all of them when it is
   * shallower. A negative depth makes `substring` fail: -1 yields the empty string, which is
   * invalid; anything below is an index error.
   */
  function ShortenToDepth(arith: MidpointArithmetic, quadTree: string, depth: Int32): (r: Result<QuadTreeAddress>)
    ensures r.Success? <==> IsValid(quadTree) && depth >= 0
    ensures r.Success? ==> var d := if depth < |quadTree| - 1 then depth else |quadTree| - 1;
                           && r.value.quadTree == quadTree[..d + 1]
                           && GetDepth(r.value.quadTree) == Success(d)
    ensures r.Success? ==> r == FromQuadTreeString(arith, r.value.quadTree)
    ensures r.Failure? ==> r.error == (if IsValid(quadTree) && depth < -1 then IndexOutOfBounds else InvalidQuadTree)
  {
    if !IsValid(quadTree) then Failure(InvalidQuadTree)
    else if depth > |quadTree| - 1 then FromQuadTreeString(arith, quadTree)
    else if depth + 1 < 0 then Failure(IndexOutOfBounds)
    else FromQuadTreeString(arith, quadTree[..depth + 1])
  }

  /** Shortening a point's address gives the address bisected directly to the smaller depth. */
  lemma ShortenFromPoint(arith: MidpointArithmetic, p: Wgs84Point, k: int, depth: int)
    requires 1 <= k <= depth <= MAX_DEPTH
    ensures ShortenToDepth(arith, FromPoint(arith, p, depth).value.quadTree, k) == FromPoint(arith, p, k)
  {
    FromPointPrefix(arith, p, k, depth);
    FromPointRoundTrip(arith, p, k);
  }

  /** `equals` compares the strings only. */
  function Equals(a: QuadTreeAddress, b: QuadTreeAddress): (r: bool)
    ensures a == b ==> r
    ensures r <==> b.quadTree == a.quadTree
  {
    a.quadTree == b.quadTree
  }

  /** Since corners and centre derive from the string, equal strings mean equal addresses. */
  lemma EqualsIsValueEquality(arith: MidpointArithmetic, s: string, t: string)
    requires FromQuadTreeString(arith, s).Success? && FromQuadTreeString(arith, t).Success?
    ensures Equals(FromQuadTreeString(arith, s).value, FromQuadTreeString(arith, t).value)
            <==> FromQuadTreeString(arith, s) == FromQuadTreeString(arith, t)
  {
  }
}
