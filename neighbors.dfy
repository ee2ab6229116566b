/**
 * Cardinal and diagonal neighbours: a rewrite of the letters from the deepest one towards the
 * shallowest, carrying on while the rewritten letter rolls over into the parent quadrant.
 */
module Neighbors {
  import opened Failures
  import opened Syntax

  /**
   * The two private shift routines and their flag. `Horizontal(true)` is what the eastern
   * neighbour asks for, `Vertical(true)` what the southern neighbour asks for.
   */
  datatype Move = Horizontal(left: bool) | Vertical(down: bool)

  /**
   * One cell of the rewrite table: the replacement letter and whether the shift carries on to
   * the next shallower letter.
   */
  function Rewrite(m: Move, c: char): (r: (char, bool))
    requires IsLetter(c)
    ensures IsLetter(r.0)
  {
    match m
    case Horizontal(left) =>
      if c == I then (II, left)
      else if c == II then (I, !left)
      else if c == III then (IV, left)
      else (III, !left)
    case Vertical(down) =>
      if c == I then (III, !down)
      else if c == II then (IV, !down)
      else if c == III then (I, down)
      else (II, down)
  }

  /** The rewrite flips the bit of the moved axis, keeps the other, and carries on a roll-over. */
  lemma RewriteFlipsOneBit(m: Move, c: char)
    requires IsLetter(c)
    ensures Bit(Moved(m), Rewrite(m, c).0) == 1 - Bit(Moved(m), c)
    ensures Bit(Other(Moved(m)), Rewrite(m, c).0) == Bit(Other(Moved(m)), c)
    ensures Rewrite(m, c).1 <==> (Step(m) == -1 && Bit(Moved(m), c) == 0) || (Step(m) == 1 && Bit(Moved(m), c) == 1)
  {
  }

  /** The letters after the rewrite: the last letter always changes, earlier ones while the carry lasts. */
  function ShiftLetters(m: Move, t: string): (r: string)
    requires AllLetters(t)
    ensures |r| == |t| && AllLetters(r)
  {
    if |t| == 0 then []
    else
      var prefix := t[..|t| - 1];
      var (c, carry) := Rewrite(m, t[|t| - 1]);
      if carry then ShiftLetters(m, prefix) + [c] else prefix + [c]
  }

  /**
   * What shiftHorizontal / shiftVertically yield: a string that fails validation or has no
   * letter is refused; otherwise the start character stays and the letters are shifted.
   */
  function Shift(m: Move, quadTree: string): (r: Result<string>)
    ensures r.Success? <==> IsValid(quadTree) && |quadTree| >= 2
    ensures r.Failure? ==> r.error == NotDeepEnough
    ensures r.Success? ==> IsValid(r.value) && |r.value| == |quadTree|
  {
    if !IsValid(quadTree) || |quadTree| - 1 < 1 then Failure(NotDeepEnough)
    else Success([START_CHAR] + ShiftLetters(m, quadTree[1..]))
  }

  /** Overwriting the last character of a kept prefix. */
  lemma OverwriteLast(q: string, i: nat, tail: string, c: char)
    requires i < |q|
    ensures (q[..i + 1] + tail)[i := c] == q[..i] + [c] + tail
  {
  }

  /**
   * One pass of the backwards loop at `index`, with the letters after it already rewritten into
   * `tail`: writing the rewritten letter either finishes the target string or leaves the same
   * situation one letter further forward.
   */
  lemma LoopStep(m: Move, quadTree: string, index: nat, tail: string, target: string)
    requires IsValid(quadTree) && 1 <= index < |quadTree|
    requires [START_CHAR] + ShiftLetters(m, quadTree[1..][..index]) + tail == target
    ensures Rewrite(m, quadTree[index]).1 && index > 1 ==>
      [START_CHAR] + ShiftLetters(m, quadTree[1..][..index - 1]) + ([Rewrite(m, quadTree[index]).0] + tail) == target
    ensures !Rewrite(m, quadTree[index]).1 || index == 1 ==>
      quadTree[..index] + [Rewrite(m, quadTree[index]).0] + tail == target
  {
    var t := quadTree[1..];
    assert t[..index][..index - 1] == t[..index - 1];
    assert quadTree[..index] == [START_CHAR] + t[..index - 1];
  }

  /** shiftHorizontal: a copy of the string, rewritten in place from the last letter backwards. */
  method ShiftHorizontal(quadTree: string, left: bool) returns (r: Result<string>)
    ensures r == Shift(Horizontal(left), quadTree)
  {
    if !IsValid(quadTree) || |quadTree| - 1 < 1 {
      return Failure(NotDeepEnough);
    }
    ghost var letters := quadTree[1..];
    ghost var target := [START_CHAR] + ShiftLetters(Horizontal(left), letters);
    var neighbor := new char[|quadTree|](i requires 0 <= i < |quadTree| => quadTree[i]);
    var shift := false;
    var index := |quadTree| - 1;
    ghost var tail: string := [];
    assert Shift(Horizontal(left), quadTree) == Success(target);
    assert letters[..index] == letters;
    assert neighbor[..] == quadTree[..index + 1] + tail;
    while index > 0
      invariant 0 <= index < |quadTree| == neighbor.Length
      invariant neighbor[..] == quadTree[..index + 1] + tail
      invariant [START_CHAR] + ShiftLetters(Horizontal(left), letters[..index]) + tail == target
      decreases index
    {
      ghost var before := neighbor[..];
      var coordinate := quadTree[index];
      if coordinate == I {
        neighbor[index] := II;
        shift := (true == left);
      } else if coordinate == II {
        neighbor[index] := I;
        shift := (false == left);
      } else if coordinate == III {
        neighbor[index] := IV;
        shift := (true == left);
      } else {
        // validation leaves IV as the only other character
        neighbor[index] := III;
        shift := (false == left);
      }
      assert (neighbor[index], shift) == Rewrite(Horizontal(left), quadTree[index]);
      assert neighbor[..] == before[index := neighbor[index]];
      OverwriteLast(quadTree, index, tail, neighbor[index]);
      LoopStep(Horizontal(left), quadTree, index, tail, target);
      if !shift || index == 1 {
        break;
      }
      tail := [neighbor[index]] + tail;
      index := index - 1;
    }
    assert neighbor[..] == target;
    return Success(neighbor[..]);
  }

  /** shiftVertically: the same loop with the vertical rewrite table. */
  method ShiftVertically(quadTree: string, down: bool) returns (r: Result<string>)
    ensures r == Shift(Vertical(down), quadTree)
  {
    if !IsValid(quadTree) || |quadTree| - 1 < 1 {
      return Failure(NotDeepEnough);
    }
    ghost var letters := quadTree[1..];
    ghost var target := [START_CHAR] + ShiftLetters(Vertical(down), letters);
    var neighbor := new char[|quadTree|](i requires 0 <= i < |quadTree| => quadTree[i]);
    var shift := false;
    var index := |quadTree| - 1;
    ghost var tail: string := [];
    assert Shift(Vertical(down), quadTree) == Success(target);
    assert letters[..index] == letters;
    assert neighbor[..] == quadTree[..index + 1] + tail;
    while index > 0
      invariant 0 <= index < |quadTree| == neighbor.Length
      invariant neighbor[..] == quadTree[..index + 1] + tail
      invariant [START_CHAR] + ShiftLetters(Vertical(down), letters[..index]) + tail == target
      decreases index
    {
      ghost var before := neighbor[..];
      var coordinate := quadTree[index];
      if coordinate == I {
        neighbor[index] := III;
        shift := (false == down);
      } else if coordinate == II {
        neighbor[index] := IV;
        shift := (false == down);
      } else if coordinate == III {
        neighbor[index] := I;
        shift := (true == down);
      } else {
        // validation leaves IV as the only other character
        neighbor[index] := II;
        shift := (true == down);
      }
      assert (neighbor[index], shift) == Rewrite(Vertical(down), quadTree[index]);
      assert neighbor[..] == before[index := neighbor[index]];
      OverwriteLast(quadTree, index, tail, neighbor[index]);
      LoopStep(Vertical(down), quadTree, index, tail, target);
      if !shift || index == 1 {
        break;
      }
      tail := [neighbor[index]] + tail;
      index := index - 1;
    }
    assert neighbor[..] == target;
    return Success(neighbor[..]);
  }

  /** The length of the rewritten run at the end: the last letter, and each earlier one the carry reaches. */
  function CarryLength(m: Move, t: string): (k: nat)
    requires AllLetters(t)
    ensures k <= |t| && (|t| > 0 ==> 1 <= k)
  {
    if |t| == 0 then 0
    else if Rewrite(m, t[|t| - 1]).1 then 1 + CarryLength(m, t[..|t| - 1])
    else 1
  }

  /**
   * The shift as a position-wise description: the letters before the run the carry reaches are
   * unchanged, those in it are rewritten.
   */
  lemma {:induction false} ShiftRewritesRun(m: Move, t: string)
    requires AllLetters(t)
    ensures forall i :: 0 <= i < |t| - CarryLength(m, t) ==> ShiftLetters(m, t)[i] == t[i]
    ensures forall i :: |t| - CarryLength(m, t) <= i < |t| ==> ShiftLetters(m, t)[i] == Rewrite(m, t[i]).0
  {
    if |t| > 0 {
      var p := t[..|t| - 1];
      var (c', carry) := Rewrite(m, t[|t| - 1]);
      ShiftLast(m, t);
      if carry {
        ShiftRewritesRun(m, p);
        assert CarryLength(m, t) == 1 + CarryLength(m, p);
        assert ShiftLetters(m, t) == ShiftLetters(m, p) + [c'];
      } else {
        assert ShiftLetters(m, t) == p + [c'];
      }
    }
  }

  /**
   * Where the carry stops: every rewritten letter but the shallowest carried, and the shallowest
   * one did not carry unless it is the first letter.
   */
  lemma {:induction false} CarryStops(m: Move, t: string)
    requires AllLetters(t)
    ensures forall i :: |t| - CarryLength(m, t) < i < |t| ==> Rewrite(m, t[i]).1
    ensures 0 < CarryLength(m, t) < |t| ==> !Rewrite(m, t[|t| - CarryLength(m, t)]).1
  {
    if |t| > 0 && Rewrite(m, t[|t| - 1]).1 {
      var p := t[..|t| - 1];
      CarryStops(m, p);
      assert forall i :: 0 <= i < |p| ==> p[i] == t[i];
    }
  }

  /** The two axes of the grid of tiles at one depth. */
  datatype Axis = Latitude | Longitude

  /** The bit of a letter on one axis: 1 for the lower half (III, IV), or for the right half (II, IV). */
  function Bit(axis: Axis, c: char): (b: nat)
    ensures b < 2
  {
    if axis == Latitude then (if c == III || c == IV then 1 else 0)
    else (if c == II || c == IV then 1 else 0)
  }

  function Pow2(n: nat): (p: nat)
    ensures p >= 1
  {
    if n == 0 then 1 else 2 * Pow2(n - 1)
  }

  /**
   * The row (latitude) or column (longitude) of a tile among the 2^depth of its depth, counted
   * from the north or the west edge: the letters' bits read with the first letter most significant.
   */
  function Numeral(axis: Axis, t: string): (x: nat)
    ensures x < Pow2(|t|)
  {
    if |t| == 0 then 0 else 2 * Numeral(axis, t[..|t| - 1]) + Bit(axis, t[|t| - 1])
  }

  /** Appending a letter appends its bit below the numeral. */
  lemma NumeralAppend(axis: Axis, q: string, c: char)
    requires AllLetters(q) && IsLetter(c)
    ensures AllLetters(q + [c]) && Numeral(axis, q + [c]) == 2 * Numeral(axis, q) + Bit(axis, c)
  {
    assert (q + [c])[..|q|] == q;
  }

  /** The axis a move changes, and the other one. */
  function Moved(m: Move): Axis {
    if m.Horizontal? then Longitude else Latitude
  }

  function Other(axis: Axis): Axis {
    if axis == Latitude then Longitude else Latitude
  }

  /** The step on the moved axis: `left` and north count down, the other two up. */
  function Step(m: Move): int {
    match m
    case Horizontal(left) => if left then -1 else 1
    case Vertical(down) => if down then 1 else -1
  }

  /** `%` on the three ranges a one-step move can reach. */
  lemma ModInRange(a: int, n: int)
    requires 0 <= a < n
    ensures a % n == a
  {
  }

  lemma ModAbove(a: int, n: int)
    requires n <= a < 2 * n
    ensures a % n == a - n
  {
  }

  lemma ModBelow(a: int, n: int)
    requires -n <= a < 0
    ensures a % n == a + n
  {
  }

  /** One step around a cycle of n positions, for a value at most one step outside [0, n). */
  function Cycle(v: int, n: int): int {
    if v < 0 then v + n else if v >= n then v - n else v
  }

  lemma CycleIsMod(v: int, n: int)
    requires -n <= v < 2 * n
    ensures Cycle(v, n) == v % n
  {
    if v < 0 {
      ModBelow(v, n);
    } else if v >= n {
      ModAbove(v, n);
    } else {
      ModInRange(v, n);
    }
  }

  /** The last letter of a shift, and the letters before it. */
  lemma ShiftLast(m: Move, t: string)
    requires AllLetters(t) && |t| > 0
    ensures ShiftLetters(m, t) ==
      (if Rewrite(m, t[|t| - 1]).1 then ShiftLetters(m, t[..|t| - 1]) else t[..|t| - 1]) + [Rewrite(m, t[|t| - 1]).0]
  {
  }

  /** A shift that stays inside the grid moves the numeral by exactly one step. */
  lemma {:induction false} ShiftWithin(m: Move, t: string)
    requires AllLetters(t) && 0 <= Numeral(Moved(m), t) + Step(m) < Pow2(|t|)
    ensures Numeral(Moved(m), ShiftLetters(m, t)) == Numeral(Moved(m), t) + Step(m)
  {
    var a := Moved(m);
    var p := t[..|t| - 1];
    var c := t[|t| - 1];
    var (c', carry) := Rewrite(m, c);
    RewriteFlipsOneBit(m, c);
    ShiftLast(m, t);
    if carry {
      ShiftWithin(m, p);
      NumeralAppend(a, ShiftLetters(m, p), c');
    } else {
      NumeralAppend(a, p, c');
    }
  }

  /** A shift off the edge of the grid wraps round to the opposite edge. */
  lemma {:induction false} ShiftAround(m: Move, t: string)
    requires AllLetters(t)
    requires Numeral(Moved(m), t) + Step(m) == -1 || Numeral(Moved(m), t) + Step(m) == Pow2(|t|)
    ensures Numeral(Moved(m), ShiftLetters(m, t)) == (if Step(m) == -1 then Pow2(|t|) - 1 else 0)
  {
    if |t| > 0 {
      var a := Moved(m);
      var p := t[..|t| - 1];
      var c := t[|t| - 1];
      var (c', carry) := Rewrite(m, c);
      RewriteFlipsOneBit(m, c);
      ShiftLast(m, t);
      ShiftAround(m, p);
      NumeralAppend(a, ShiftLetters(m, p), c');
    }
  }

  /**
   * The numeral view of a shift: the moved axis steps by one around the 2^depth rows or columns
   * (the carry out of the first letter is dropped).
   */
  lemma ShiftSteps(m: Move, t: string)
    requires AllLetters(t)
    ensures Numeral(Moved(m), ShiftLetters(m, t)) == Cycle(Numeral(Moved(m), t) + Step(m), Pow2(|t|))
  {
    var v := Numeral(Moved(m), t) + Step(m);
    if 0 <= v < Pow2(|t|) {
      ShiftWithin(m, t);
    } else {
      ShiftAround(m, t);
    }
  }

  /** The same step as arithmetic modulo 2^depth. */
  lemma ShiftNumeral(m: Move, t: string)
    requires AllLetters(t)
    ensures Numeral(Moved(m), ShiftLetters(m, t)) == (Numeral(Moved(m), t) + Step(m)) % Pow2(|t|)
  {
    ShiftSteps(m, t);
    CycleIsMod(Numeral(Moved(m), t) + Step(m), Pow2(|t|));
  }

  /** The numeral view of a shift, continued: the axis that is not moved keeps its value. */
  lemma {:induction false} ShiftKeepsOtherAxis(m: Move, t: string)
    requires AllLetters(t)
    ensures Numeral(Other(Moved(m)), ShiftLetters(m, t)) == Numeral(Other(Moved(m)), t)
  {
    if |t| > 0 {
      var o := Other(Moved(m));
      var p := t[..|t| - 1];
      var c := t[|t| - 1];
      var r := ShiftLetters(m, t);
      var (c', carry) := Rewrite(m, c);
      var q := if carry then ShiftLetters(m, p) else p;
      assert r[..|r| - 1] == q && r[|r| - 1] == c';
      assert Bit(o, c') == Bit(o, c) by {
        RewriteFlipsOneBit(m, c);
      }
      ShiftKeepsOtherAxis(m, p);
    }
  }

  /** Two letters with the same bit on each axis are the same letter. */
  lemma BitsDetermineLetter(c: char, d: char)
    requires IsLetter(c) && IsLetter(d)
    requires Bit(Latitude, c) == Bit(Latitude, d) && Bit(Longitude, c) == Bit(Longitude, d)
    ensures c == d
  {
  }

  /** A tile is determined by its row and its column. */
  lemma {:induction false} NumeralsDetermineLetters(t: string, u: string)
    requires AllLetters(t) && AllLetters(u) && |t| == |u|
    requires Numeral(Latitude, t) == Numeral(Latitude, u)
    requires Numeral(Longitude, t) == Numeral(Longitude, u)
    ensures t == u
  {
    if |t| > 0 {
      var n := |t| - 1;
      PeelLowestLetter(t, u);
      NumeralsDetermineLetters(t[..n], u[..n]);
      assert t == t[..n] + [t[n]] && u == u[..n] + [u[n]];
    }
  }

  /** Equal numerals have the same last letter, and equal numerals above it. */
  lemma PeelLowestLetter(t: string, u: string)
    requires AllLetters(t) && AllLetters(u) && |t| == |u| > 0
    requires Numeral(Latitude, t) == Numeral(Latitude, u)
    requires Numeral(Longitude, t) == Numeral(Longitude, u)
    ensures t[|t| - 1] == u[|u| - 1]
    ensures Numeral(Latitude, t[..|t| - 1]) == Numeral(Latitude, u[..|u| - 1])
    ensures Numeral(Longitude, t[..|t| - 1]) == Numeral(Longitude, u[..|u| - 1])
  {
    var n := |t| - 1;
    var p, q := t[..n], u[..n];
    SplitLowBit(Numeral(Latitude, p), Bit(Latitude, t[n]), Numeral(Latitude, q), Bit(Latitude, u[n]),
                Numeral(Latitude, t), Numeral(Latitude, u));
    SplitLowBit(Numeral(Longitude, p), Bit(Longitude, t[n]), Numeral(Longitude, q), Bit(Longitude, u[n]),
                Numeral(Longitude, t), Numeral(Longitude, u));
    BitsDetermineLetter(t[n], u[n]);
  }

  /** A numeral splits uniquely into the numeral above its lowest bit and that bit. */
  lemma SplitLowBit(x: int, b: int, y: int, c: int, whole: int, other: int)
    requires 0 <= b < 2 && 0 <= c < 2
    requires whole == 2 * x + b && other == 2 * y + c && whole == other
    ensures x == y && b == c
  {
  }

  /** The move in the opposite direction. */
  function Opposite(m: Move): (o: Move)
    ensures Moved(o) == Moved(m) && Step(o) == -Step(m)
  {
    match m
    case Horizontal(left) => Horizontal(!left)
    case Vertical(down) => Vertical(!down)
  }

  /** Stepping round the cycle and back. */
  lemma CycleBack(x: int, n: int, d: int, e: int, y: int, z: int)
    requires n >= 1 && 0 <= x < n && (d == -1 || d == 1) && e == -d
    requires y == Cycle(x + d, n) && z == Cycle(y + e, n)
    ensures z == x
  {
  }

  /** The opposite shift steps the numeral back. */
  lemma OppositeStepsBack(m: Move, t: string)
    requires AllLetters(t)
    ensures Numeral(Moved(m), ShiftLetters(Opposite(m), ShiftLetters(m, t))) == Numeral(Moved(m), t)
  {
    var o := Opposite(m);
    var a := Moved(m);
    var u := ShiftLetters(m, t);
    var v := ShiftLetters(o, u);
    ShiftSteps(m, t);
    ShiftSteps(o, u);
    assert Moved(o) == a && |u| == |t|;
    assert Numeral(a, v) == Cycle(Numeral(a, u) + Step(o), Pow2(|t|));
    CycleBack(Numeral(a, t), Pow2(|t|), Step(m), Step(o), Numeral(a, u), Numeral(a, v));
  }

  /** A shift followed by the opposite shift gives back the letters. */
  lemma ShiftInverse(m: Move, t: string)
    requires AllLetters(t)
    ensures ShiftLetters(Opposite(m), ShiftLetters(m, t)) == t
  {
    var u := ShiftLetters(m, t);
    OppositeStepsBack(m, t);
    ShiftKeepsOtherAxis(m, t);
    ShiftKeepsOtherAxis(Opposite(m), u);
    NumeralsDetermineLetters(ShiftLetters(Opposite(m), u), t);
  }

  /** The row of a tile among the 2^depth rows of its depth, counted from the north edge. */
  function Row(quadTree: string): nat {
    if |quadTree| == 0 then 0 else Numeral(Latitude, quadTree[1..])
  }

  /** The column of a tile among the 2^depth columns of its depth, counted from the west edge. */
  function Column(quadTree: string): nat {
    if |quadTree| == 0 then 0 else Numeral(Longitude, quadTree[1..])
  }

  /** getNorthernNeighbor: one row towards the north, the same column; the top row wraps round. */
  function GetNorthernNeighbor(quadTree: string): (r: Result<string>)
    ensures r.Success? <==> IsValid(quadTree) && |quadTree| >= 2
    ensures r.Failure? ==> r.error == NotDeepEnough
    ensures r.Success? ==> IsValid(r.value) && |r.value| == |quadTree|
  {
    Shift(Vertical(false), quadTree)
  }

  /** getSouthernNeighbor: one row towards the south, the same column; the bottom row wraps round. */
  function GetSouthernNeighbor(quadTree: string): (r: Result<string>)
    ensures r.Success? <==> IsValid(quadTree) && |quadTree| >= 2
    ensures r.Failure? ==> r.error == NotDeepEnough
    ensures r.Success? ==> IsValid(r.value) && |r.value| == |quadTree|
  {
    Shift(Vertical(true), quadTree)
  }

  /**
   * getEasternNeighbor as written: it passes `left = true`, so the tile it yields lies one
   * column towards the WEST (II is the half with the larger longitude); the row is unchanged.
   */
  function GetEasternNeighbor(quadTree: string): (r: Result<string>)
    ensures r.Success? <==> IsValid(quadTree) && |quadTree| >= 2
    ensures r.Failure? ==> r.error == NotDeepEnough
    ensures r.Success? ==> IsValid(r.value) && |r.value| == |quadTree|
  {
    Shift(Horizontal(true), quadTree)
  }

  /** getWesternNeighbor as written: one column towards the EAST, the same row. */
  function GetWesternNeighbor(quadTree: string): (r: Result<string>)
    ensures r.Success? <==> IsValid(quadTree) && |quadTree| >= 2
    ensures r.Failure? ==> r.error == NotDeepEnough
    ensures r.Success? ==> IsValid(r.value) && |r.value| == |quadTree|
  {
    Shift(Horizontal(false), quadTree)
  }

  /** The letters of a shifted string are the shifted letters. */
  lemma ShiftTail(m: Move, quadTree: string)
    requires IsValid(quadTree) && |quadTree| >= 2
    ensures Shift(m, quadTree).value[1..] == ShiftLetters(m, quadTree[1..])
  {
  }

  /** A shift moves the letters' tile one step on the moved axis and keeps the other axis. */
  lemma ShiftMovesTile(m: Move, t: string, axis: Axis, d: int, v: int, w: int, n: int)
    requires AllLetters(t) && axis == Moved(m) && d == Step(m) && n == Pow2(|t|)
    requires v == Numeral(axis, t) && w == Numeral(Other(axis), t)
    ensures Numeral(axis, ShiftLetters(m, t)) == Cycle(v + d, n)
    ensures Numeral(Other(axis), ShiftLetters(m, t)) == w
  {
    ShiftSteps(m, t);
    ShiftKeepsOtherAxis(m, t);
  }

  /** The northern neighbour lies one row up (the top row wraps round to the bottom), same column. */
  lemma NorthernNeighborMoves(quadTree: string)
    requires IsValid(quadTree) && |quadTree| >= 2
    ensures var north := GetNorthernNeighbor(quadTree).value;
      && Row(north) == Cycle(Row(quadTree) - 1, Pow2(|quadTree| - 1))
      && Column(north) == Column(quadTree)
  {
    ShiftTail(Vertical(false), quadTree);
    ShiftMovesTile(Vertical(false), quadTree[1..], Latitude, -1, Row(quadTree), Column(quadTree), Pow2(|quadTree| - 1));
  }

  /** The southern neighbour lies one row down (the bottom row wraps round to the top), same column. */
  lemma SouthernNeighborMoves(quadTree: string)
    requires IsValid(quadTree) && |quadTree| >= 2
    ensures var south := GetSouthernNeighbor(quadTree).value;
      && Row(south) == Cycle(Row(quadTree) + 1, Pow2(|quadTree| - 1))
      && Column(south) == Column(quadTree)
  {
    ShiftTail(Vertical(true), quadTree);
    ShiftMovesTile(Vertical(true), quadTree[1..], Latitude, 1, Row(quadTree), Column(quadTree), Pow2(|quadTree| - 1));
  }

  /** The tile getEasternNeighbor yields lies one column to the WEST (wrapping round), same row. */
  lemma EasternNeighborMoves(quadTree: string)
    requires IsValid(quadTree) && |quadTree| >= 2
    ensures var east := GetEasternNeighbor(quadTree).value;
      && Column(east) == Cycle(Column(quadTree) - 1, Pow2(|quadTree| - 1))
      && Row(east) == Row(quadTree)
  {
    ShiftTail(Horizontal(true), quadTree);
    ShiftMovesTile(Horizontal(true), quadTree[1..], Longitude, -1, Column(quadTree), Row(quadTree), Pow2(|quadTree| - 1));
  }

  /** The tile getWesternNeighbor yields lies one column to the EAST (wrapping round), same row. */
  lemma WesternNeighborMoves(quadTree: string)
    requires IsValid(quadTree) && |quadTree| >= 2
    ensures var west := GetWesternNeighbor(quadTree).value;
      && Column(west) == Cycle(Column(quadTree) + 1, Pow2(|quadTree| - 1))
      && Row(west) == Row(quadTree)
  {
    ShiftTail(Horizontal(false), quadTree);
    ShiftMovesTile(Horizontal(false), quadTree[1..], Longitude, 1, Column(quadTree), Row(quadTree), Pow2(|quadTree| - 1));
  }

  /** A valid address of the given length, which is its depth plus one. */
  predicate IsValidOfLength(quadTree: string, length: int) {
    IsValid(quadTree) && |quadTree| == length
  }

  /** A tile together with its two horizontal neighbours. */
  function RowOfThree(quadTree: string): (r: set<string>)
    requires IsValid(quadTree) && |quadTree| >= 2
    ensures quadTree in r
    ensures forall u | u in r :: IsValidOfLength(u, |quadTree|)
  {
    {quadTree, GetEasternNeighbor(quadTree).value, GetWesternNeighbor(quadTree).value}
  }

  /** The two horizontal neighbours of a tile. */
  function Sides(quadTree: string): (r: set<string>)
    requires IsValid(quadTree) && |quadTree| >= 2
    ensures forall u | u in r :: IsValidOfLength(u, |quadTree|)
  {
    {GetEasternNeighbor(quadTree).value, GetWesternNeighbor(quadTree).value}
  }

  /**
   * getNeighbors: refused below depth 2; otherwise the northern and southern neighbours, each
   * with its two horizontal neighbours, and the two horizontal neighbours of the tile itself.
   */
  function GetNeighbors(quadTree: string): (r: Result<set<string>>)
    ensures r.Success? <==> IsValid(quadTree) && |quadTree| >= 3
    ensures r.Failure? ==> r.error == NotDeepEnough
    ensures r.Success? ==> forall u | u in r.value :: IsValidOfLength(u, |quadTree|)
  {
    if !IsValid(quadTree) || |quadTree| - 1 < 2 then Failure(NotDeepEnough)
    else
      var north := GetNorthernNeighbor(quadTree).value;
      var south := GetSouthernNeighbor(quadTree).value;
      Success(RowOfThree(north) + RowOfThree(south) + Sides(quadTree))
  }

  /** A shift of a whole string is undone by the opposite shift. */
  lemma ShiftUndone(m: Move, quadTree: string)
    requires IsValid(quadTree) && |quadTree| >= 2
    ensures Shift(Opposite(m), Shift(m, quadTree).value) == Success(quadTree)
  {
    var t := quadTree[1..];
    var u := Shift(m, quadTree).value;
    assert u == [START_CHAR] + ShiftLetters(m, t);
    assert u[1..] == ShiftLetters(m, t);
    ShiftInverse(m, t);
    assert Shift(Opposite(m), u) == Success([START_CHAR] + t);
    assert quadTree == [START_CHAR] + t;
  }

  /** The western neighbour of the eastern neighbour is the tile itself. */
  lemma WesternUndoesEastern(quadTree: string)
    requires IsValid(quadTree) && |quadTree| >= 2
    ensures GetWesternNeighbor(GetEasternNeighbor(quadTree).value) == Success(quadTree)
  {
    ShiftUndone(Horizontal(true), quadTree);
  }

  /** The eastern neighbour of the western neighbour is the tile itself. */
  lemma EasternUndoesWestern(quadTree: string)
    requires IsValid(quadTree) && |quadTree| >= 2
    ensures GetEasternNeighbor(GetWesternNeighbor(quadTree).value) == Success(quadTree)
  {
    ShiftUndone(Horizontal(false), quadTree);
  }

  /** The southern neighbour of the northern neighbour is the tile itself. */
  lemma SouthernUndoesNorthern(quadTree: string)
    requires IsValid(quadTree) && |quadTree| >= 2
    ensures GetSouthernNeighbor(GetNorthernNeighbor(quadTree).value) == Success(quadTree)
  {
    ShiftUndone(Vertical(false), quadTree);
  }

  /** The northern neighbour of the southern neighbour is the tile itself. */
  lemma NorthernUndoesSouthern(quadTree: string)
    requires IsValid(quadTree) && |quadTree| >= 2
    ensures GetNorthernNeighbor(GetSouthernNeighbor(quadTree).value) == Success(quadTree)
  {
    ShiftUndone(Vertical(true), quadTree);
  }

  /** From depth 2 on there are at least four rows and four columns. */
  lemma Pow2AtLeastFour(n: nat)
    requires n >= 2
    ensures Pow2(n) >= 4
  {
    assert Pow2(n - 1) >= 2 by {
      assert Pow2(n - 1) == 2 * Pow2(n - 2);
    }
  }

  /** With three or more rows, the row above, the row itself and the row below are three rows. */
  lemma ThreeDistinct(x: int, n: int)
    requires 3 <= n && 0 <= x < n
    ensures Cycle(x - 1, n) != x && Cycle(x + 1, n) != x && Cycle(x - 1, n) != Cycle(x + 1, n)
  {
  }

  /**
   * From depth 2 on, a tile has eight distinct neighbours and is not among them:
   * they take every combination of row offset and column offset in {-1, 0, 1}
   * except (0, 0), modulo 2^depth.
   */
  lemma EightNeighbors(quadTree: string)
    requires IsValid(quadTree) && |quadTree| >= 3
    ensures |GetNeighbors(quadTree).value| == 8
    ensures quadTree !in GetNeighbors(quadTree).value
  {
    NeighborRowsDiffer(quadTree);
    var north := GetNorthernNeighbor(quadTree).value;
    var south := GetSouthernNeighbor(quadTree).value;
    ThreeRows(quadTree, north, south);
  }

  /** Three rows of tiles: the rows of `north`, of `south` and of the tile itself are different. */
  lemma ThreeRows(quadTree: string, north: string, south: string)
    requires IsValid(quadTree) && |quadTree| >= 3
    requires IsValid(north) && |north| == |quadTree| && IsValid(south) && |south| == |quadTree|
    requires Row(north) != Row(south) && Row(north) != Row(quadTree) && Row(south) != Row(quadTree)
    ensures |RowOfThree(north) + RowOfThree(south) + Sides(quadTree)| == 8
    ensures quadTree !in RowOfThree(north) + RowOfThree(south) + Sides(quadTree)
  {
    RowOfThreeInRow(north);
    RowOfThreeInRow(south);
    SidesInRow(quadTree);
    RowsApart(RowOfThree(north), RowOfThree(south), Sides(quadTree),
              quadTree, Row(north), Row(south), Row(quadTree));
  }

  /** From depth 2 on, the northern neighbour, the southern neighbour and the tile lie in three rows. */
  lemma NeighborRowsDiffer(quadTree: string)
    requires IsValid(quadTree) && |quadTree| >= 3
    ensures var north, south := GetNorthernNeighbor(quadTree).value, GetSouthernNeighbor(quadTree).value;
      && Row(north) != Row(south) && Row(north) != Row(quadTree) && Row(south) != Row(quadTree)
  {
    Pow2AtLeastFour(|quadTree| - 1);
    ThreeDistinct(Row(quadTree), Pow2(|quadTree| - 1));
    NorthernNeighborMoves(quadTree);
    SouthernNeighborMoves(quadTree);
  }

  /** Every tile of the set lies in row `r`. */
  predicate InRow(tiles: set<string>, r: int) {
    forall u | u in tiles :: Row(u) == r
  }

  /** From depth 2 on, a tile and its two horizontal neighbours are three tiles, all in its row. */
  lemma RowOfThreeInRow(quadTree: string)
    requires IsValid(quadTree) && |quadTree| >= 3
    ensures |RowOfThree(quadTree)| == 3 && InRow(RowOfThree(quadTree), Row(quadTree))
  {
    SidewaysApart(quadTree);
    ThreeInRow(quadTree, GetEasternNeighbor(quadTree).value, GetWesternNeighbor(quadTree).value);
  }

  /** From depth 2 on, the two horizontal neighbours are two tiles in the row, neither the tile itself. */
  lemma SidesInRow(quadTree: string)
    requires IsValid(quadTree) && |quadTree| >= 3
    ensures |Sides(quadTree)| == 2 && quadTree !in Sides(quadTree) && InRow(Sides(quadTree), Row(quadTree))
  {
    SidewaysApart(quadTree);
    ThreeInRow(quadTree, GetEasternNeighbor(quadTree).value, GetWesternNeighbor(quadTree).value);
  }

  /** From depth 2 on, the horizontal neighbours share the tile's row and lie in two other columns. */
  lemma SidewaysApart(quadTree: string)
    requires IsValid(quadTree) && |quadTree| >= 3
    ensures var east, west := GetEasternNeighbor(quadTree).value, GetWesternNeighbor(quadTree).value;
      && Row(east) == Row(quadTree) && Row(west) == Row(quadTree)
      && Column(east) != Column(quadTree) && Column(west) != Column(quadTree) && Column(east) != Column(west)
  {
    Pow2AtLeastFour(|quadTree| - 1);
    ThreeDistinct(Column(quadTree), Pow2(|quadTree| - 1));
    EasternNeighborMoves(quadTree);
    WesternNeighborMoves(quadTree);
  }

  /** Three tiles of one row in three different columns. */
  lemma ThreeInRow(here: string, east: string, west: string)
    requires Row(east) == Row(here) && Row(west) == Row(here)
    requires Column(east) != Column(here) && Column(west) != Column(here) && Column(east) != Column(west)
    ensures |{here, east, west}| == 3 && InRow({here, east, west}, Row(here))
    ensures |{east, west}| == 2 && here !in {east, west} && InRow({east, west}, Row(here))
  {
  }

  /** Sets of tiles from three different rows are disjoint. */
  lemma RowsApart(a: set<string>, b: set<string>, c: set<string>, here: string, ra: int, rb: int, rc: int)
    requires ra != rb && rb != rc && ra != rc
    requires InRow(a, ra) && InRow(b, rb) && InRow(c, rc)
    requires Row(here) == rc && here !in c
    ensures |a + b + c| == |a| + |b| + |c|
    ensures here !in a + b + c
  {
    assert a * b == {};
    assert (a + b) * c == {};
  }
}
