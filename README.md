# QuadTreeAddress in Dafny

A model of the QuadTreeAddress library: a codec for quad-tree map addresses. An address is
the start character `+` followed by up to 26 quadrant letters. `A`, `B`, `C` and `D` name the
upper-left, upper-right, lower-left and lower-right quadrant of the current tile. Coordinates are
fixed-point `int`s in tenths of a micro-degree (±900000000 latitude, ±1800000000 longitude).

The model covers:

- the range-checked point type `Wgs84Point` (`wgs84_point.dfy`, module `Wgs84`);
- validation and depth of address strings (`syntax.dfy`, module `Syntax`);
- the bisection behind `createFromPoint` and `createFromQuadTreeString`: four running bounds
  that move to the midpoint, one bound per axis and step (`bisection.dfy`, module `Bisection`);
- the address value with its two factories, containment, shortening and equality
  (`address.dfy`, module `Address`);
- the neighbour shifts with their carry loop, the four directional wrappers and `getNeighbors`
  (`neighbors.dfy`, module `Neighbors`), plus the neighbour results of the library's test suite
  (`neighbor_examples.dfy`, module `NeighborExamples`);
- the 64-bit packing `toNumberRepresentation` / `toLetterRepresentation` (`packing.dfy`,
  module `Packing`);
- the error kinds and the `Result` type that stands for the thrown exceptions (`failures.dfy`).

Each operation is a specification function, and each loop of the source is a method proved
equal to that function:

- `createFromPoint` is a loop over four `int` bounds, appending letters to a string.
- `createFromQuadTreeString` is a loop over the letters.
- `shiftHorizontal` and `shiftVertically` run a descending loop with `break` over a `char` array
  copy.
- `toNumberRepresentation` accumulates with `+=` and a shift.
- `toLetterRepresentation` fills a `char` array.

Thrown `IllegalArgumentException`s become `Failure` results with a named error kind.

The midpoint `(upper + lower) / 2` is an `int` sum in the source, and the longitude sum can
exceed 32 bits. The bisection is therefore parameterised by `MidpointArithmetic`:

- `JavaInt` is the source as written: the sum wraps at 32 bits, then `/ 2` truncates toward zero.
- `Widened` is the evidently intended `long` sum.

Some properties are proved for both: the bounds stay in the world and enclose the point, decoding
reproduces encoding, and the prefix property. That the tile halves each step and lower ≤ upper
after decoding is proved for `Widened` only. For `JavaInt`, concrete inputs show both fail
(see Findings).

Behaviour worth knowing:

- **Packing order.** The first letter sits in bits 0-1 and the deepest letter highest, as the
  loop at QuadTreeAddress.java:619-636 computes and the javadoc table at lines 514-541 says.
- **East and west.** The javadoc of `getEasternNeighbor` says it returns the eastern neighbour
  (line 439), but the method passes `left=true` (lines 443-445). That moves one column towards
  the west (column − 1), and `getWesternNeighbor` moves towards the east. The model follows the
  code, and the test suite pins the same behaviour: east of `+ACAB` is `+ACAA`.
- **Wrapping at the edge.** When the carry runs through every letter, the shift wraps round to
  the opposite edge (row or column ± 1 mod 2^depth). It does not leave the map.
- **`contains` is prefix matching.** `String.contains` between valid strings is prefix
  matching, because `+` occurs only at index 0 (`Address.OccursInValidIsPrefix`).

## Model

| member | source | states |
|---|---|---|
| Wgs84.NewWgs84Point | QuadTreeAddress/src/de/okkyou/quadtreeaddress/Wgs84Point.java:26-38 | the integer constructor succeeds exactly when latitude is in [-900000000, 900000000] and longitude in [-1800000000, 1800000000]; the point keeps both values (the getters); a bad latitude is reported before a bad longitude |
| Wgs84.Equals | QuadTreeAddress/src/de/okkyou/quadtreeaddress/Wgs84Point.java:73-87 | two points are equal exactly when both fixed-point fields agree, i.e. as values |
| Wgs84.BoundsAreInclusive | QuadTreeAddress/src/de/okkyou/quadtreeaddress/Wgs84Point.java:27-33 | ±90° and ±180° are accepted; one unit beyond each bound is refused with the matching error |
| Syntax.Code | QuadTreeAddress/src/de/okkyou/quadtreeaddress/QuadTreeAddress.java:30-33 | the sector code of a letter is a 2-bit value |
| Syntax.LetterOf | QuadTreeAddress/src/de/okkyou/quadtreeaddress/QuadTreeAddress.java:30-38 | the letter of a sector code is a quadrant letter whose code is that sector, so it inverts `Code` |
| Syntax.CodeIsInjective | QuadTreeAddress/src/de/okkyou/quadtreeaddress/QuadTreeAddress.java:30-38 | `Code` followed by `LetterOf` gives the letter back |
| Syntax.Quadrant | QuadTreeAddress/src/de/okkyou/quadtreeaddress/QuadTreeAddress.java:103-128 | the letter for a (lower half, right half) choice has latitude bit = lower and longitude bit = right |
| Syntax.AllLetters | QuadTreeAddress/src/de/okkyou/quadtreeaddress/QuadTreeAddress.java:44 | the pattern `[ABCD]*` holds exactly when every character is one of A, B, C, D |
| Syntax.IsValid | QuadTreeAddress/src/de/okkyou/quadtreeaddress/QuadTreeAddress.java:207-214 | valid exactly when the string has 1 to 27 characters, starts with `+`, and every later character is a letter |
| Syntax.StartCharOnlyFirst | QuadTreeAddress/src/de/okkyou/quadtreeaddress/QuadTreeAddress.java:44 | in a valid string `+` occurs at index 0 and nowhere else |
| Syntax.GetDepth | QuadTreeAddress/src/de/okkyou/quadtreeaddress/QuadTreeAddress.java:331-336 | defined exactly for valid strings, with error otherwise; the depth is the length minus one and at most 26 |
| Syntax.ValidationExamples | QuadTreeAddress/test/de/okkyou/quadtreeaddress/test/QuadTreeAddressTest.java:14-16 | `ACABACAB`, `+BAEA`, the empty string and a 27-letter string are invalid; `+ACABD` has depth 5 and `+` has depth 0 |
| Bisection.JavaDiv2 | QuadTreeAddress/src/de/okkyou/quadtreeaddress/QuadTreeAddress.java:100-101 | Java's `/ 2` truncates toward zero: the result is within one half of x/2, on the side of zero |
| Bisection.Mid | QuadTreeAddress/src/de/okkyou/quadtreeaddress/QuadTreeAddress.java:100-101 | `(upper + lower) / 2`: while the sum fits in an `int` both arithmetics give the truncated half of the sum; with a widened sum the midpoint lies between ordered bounds |
| Bisection.WrapInt32 | QuadTreeAddress/src/de/okkyou/quadtreeaddress/QuadTreeAddress.java:100-101 | the `int` sum wraps: the result is congruent to the sum mod 2^32 and equals it when the sum fits in 32 bits |
| Bisection.MidStaysInWorld | QuadTreeAddress/src/de/okkyou/quadtreeaddress/QuadTreeAddress.java:100-101 | midpoints of bounds inside the world are coordinates a point accepts, with or without wrap-around |
| Bisection.LatitudeMidNeverWraps | QuadTreeAddress/src/de/okkyou/quadtreeaddress/QuadTreeAddress.java:100 | latitude sums stay within `int`, so the wrapped and widened latitude midpoints agree |
| Bisection.Bisect | QuadTreeAddress/src/de/okkyou/quadtreeaddress/QuadTreeAddress.java:100-117 | one forward step keeps the bounds inside the world and keeps the point enclosed (lower ≤ coordinate ≤ upper on both axes) |
| Bisection.Narrow | QuadTreeAddress/src/de/okkyou/quadtreeaddress/QuadTreeAddress.java:170-188 | one decoding step keeps the bounds inside the world |
| Bisection.Choose | QuadTreeAddress/src/de/okkyou/quadtreeaddress/QuadTreeAddress.java:103-128 | the appended letter is a quadrant letter whose latitude bit is set exactly when lat < latMid and whose longitude bit is set exactly when lon ≥ lonMid |
| Bisection.NarrowReplaysBisect | QuadTreeAddress/src/de/okkyou/quadtreeaddress/QuadTreeAddress.java:103-117 | decoding the letter a forward step chose moves exactly the bounds that forward step moved (lines 174-185 do the same as 103-117) |
| Bisection.Trail | QuadTreeAddress/src/de/okkyou/quadtreeaddress/QuadTreeAddress.java:98-130 | after n steps there are n letters, all quadrant letters, and the bounds are inside the world and enclose the point |
| Bisection.Replay | QuadTreeAddress/src/de/okkyou/quadtreeaddress/QuadTreeAddress.java:168-189 | the bounds after decoding any letters stay inside the world |
| Bisection.TrailStep | QuadTreeAddress/src/de/okkyou/quadtreeaddress/QuadTreeAddress.java:98-130 | one more step of the loop keeps every letter already appended |
| Bisection.TrailPrefix | QuadTreeAddress/src/de/okkyou/quadtreeaddress/QuadTreeAddress.java:98-130 | the letters after k steps are the first k letters after n ≥ k steps |
| Bisection.ReplayTrail | QuadTreeAddress/src/de/okkyou/quadtreeaddress/QuadTreeAddress.java:98-189 | decoding the letters of n forward steps reaches the same four bounds as those n steps |
| Bisection.ReplayPrefixEncloses | QuadTreeAddress/src/de/okkyou/quadtreeaddress/QuadTreeAddress.java:168-189 | decoding any prefix of a point's letters gives bounds that enclose the point |
| Bisection.WidenedNarrowHalves | QuadTreeAddress/src/de/okkyou/quadtreeaddress/QuadTreeAddress.java:170-171 | with a widened sum a decoding step keeps lower ≤ upper and halves both widths up to rounding |
| Bisection.WidenedReplayOrdered | QuadTreeAddress/src/de/okkyou/quadtreeaddress/QuadTreeAddress.java:168-189 | with a widened sum every decoded range has lower ≤ upper |
| Bisection.WidenedTrailHalves | QuadTreeAddress/src/de/okkyou/quadtreeaddress/QuadTreeAddress.java:100-117 | with a widened sum every forward step halves both widths up to rounding |
| Bisection.JavaIntTileWidens | QuadTreeAddress/src/de/okkyou/quadtreeaddress/QuadTreeAddress.java:101 | as written, for the point (0, 1800000000) the longitude width is 900000000 at depth 2 and 2597483648 at depth 3, with lower bound -797483648 |
| Bisection.JavaIntInvertedRange | QuadTreeAddress/src/de/okkyou/quadtreeaddress/QuadTreeAddress.java:171 | as written, decoding `BBA` yields longitude lower bound 900000000 above upper bound -797483648 |
| Address.Rectangle | QuadTreeAddress/src/de/okkyou/quadtreeaddress/QuadTreeAddress.java:132-137 | the address keeps the string; the upper corners take latUpper, the lower corners latLower, the left corners lonLower and the right corners lonUpper; the centre (getCenterPoint) is the midpoint of each pair of thresholds, and with widened arithmetic on ordered bounds it lies between the corners |
| Address.FromPoint | QuadTreeAddress/src/de/okkyou/quadtreeaddress/QuadTreeAddress.java:79-83 | succeeds exactly for depth in [1, 26], otherwise the invalid-depth error; the string has depth + 1 characters |
| Address.FromQuadTreeString | QuadTreeAddress/src/de/okkyou/quadtreeaddress/QuadTreeAddress.java:154-158 | succeeds exactly for valid strings, otherwise the invalid-string error; the address keeps the string |
| Address.FromPointShape | QuadTreeAddress/src/de/okkyou/quadtreeaddress/QuadTreeAddress.java:79-138 | the string of a point's address is valid, its depth is the requested one, and the corners enclose the point |
| Address.SectorOfLetter | QuadTreeAddress/src/de/okkyou/quadtreeaddress/QuadTreeAddress.java:105-119 | the latitude sector (0 or 2) plus the longitude sector (0 or 1) is the code of the chosen letter |
| Address.QuadrantOfSector | QuadTreeAddress/src/de/okkyou/quadtreeaddress/QuadTreeAddress.java:120-128 | the letter appended for sector 0 to 3 is the letter of that code |
| Address.BisectOnce | QuadTreeAddress/src/de/okkyou/quadtreeaddress/QuadTreeAddress.java:100-128 | one pass of the loop body returns the chosen letter and the bisected bounds |
| Address.CreateFromPoint | QuadTreeAddress/src/de/okkyou/quadtreeaddress/QuadTreeAddress.java:79-138 | the loop over four running `int` bounds returns exactly `FromPoint`: the error for a bad depth, else the rectangle of `Trail` |
| Address.ReplayStep | QuadTreeAddress/src/de/okkyou/quadtreeaddress/QuadTreeAddress.java:168-189 | decoding one more letter narrows the bounds reached so far by that letter |
| Address.CreateFromQuadTreeString | QuadTreeAddress/src/de/okkyou/quadtreeaddress/QuadTreeAddress.java:154-198 | validation then the letter-driven loop returns exactly `FromQuadTreeString` |
| Address.FromPointRoundTrip | QuadTreeAddress/src/de/okkyou/quadtreeaddress/QuadTreeAddress.java:79-198 | decoding the string of a point's address rebuilds the same address: same bounds, corners and centre |
| Address.FromPointPrefix | QuadTreeAddress/src/de/okkyou/quadtreeaddress/QuadTreeAddress.java:98-130 | the string of depth k is a prefix of the string of depth d for the same point, 1 ≤ k ≤ d |
| Address.OccursIn | QuadTreeAddress/src/de/okkyou/quadtreeaddress/QuadTreeAddress.java:264 | `String.contains`: an occurrence needs the part to be no longer than the whole, and a prefix is always an occurrence |
| Address.OccursInValidIsPrefix | QuadTreeAddress/src/de/okkyou/quadtreeaddress/QuadTreeAddress.java:264 | between valid strings, one occurs inside the other exactly when it is a prefix of it |
| Address.Contains | QuadTreeAddress/src/de/okkyou/quadtreeaddress/QuadTreeAddress.java:260-268 | defined exactly when both strings are valid, otherwise the invalid-string error; true exactly when the first is a prefix of the second |
| Address.ContainsPoint | QuadTreeAddress/src/de/okkyou/quadtreeaddress/QuadTreeAddress.java:237-249 | defined exactly for a valid string; true exactly when it is a prefix of the point's depth-26 string |
| Address.ContainedPointIsEnclosed | QuadTreeAddress/src/de/okkyou/quadtreeaddress/QuadTreeAddress.java:237-249 | a string that contains a point decodes to corners that enclose the point |
| Address.ShortenToDepth | QuadTreeAddress/src/de/okkyou/quadtreeaddress/QuadTreeAddress.java:302-310 | defined for valid strings and depth ≥ 0; the result is the prefix of min(depth, current depth) letters, has that depth, and is the decoded address of that prefix; an invalid string or depth −1 fails as an invalid string, a valid string with depth below −1 as an index error |
| Address.ShortenFromPoint | QuadTreeAddress/test/de/okkyou/quadtreeaddress/test/QuadTreeAddressTest.java:139-146 | shortening the address of a point to depth k gives the point's address at depth k |
| Address.EqualsIsValueEquality | QuadTreeAddress/src/de/okkyou/quadtreeaddress/QuadTreeAddress.java:716-729 | two decoded addresses are `equals` exactly when they are equal as values |
| Address.Equals | QuadTreeAddress/src/de/okkyou/quadtreeaddress/QuadTreeAddress.java:716-729 | `equals` is reflexive (the `this == obj` shortcut) and true exactly when the strings agree, whatever the corners; Address.EqualsIsValueEquality shows that on decoded addresses this is value equality |
| Neighbors.Rewrite | QuadTreeAddress/src/de/okkyou/quadtreeaddress/QuadTreeAddress.java:462-505 | each cell of the rewrite table replaces a letter with a letter |
| Neighbors.RewriteFlipsOneBit | QuadTreeAddress/src/de/okkyou/quadtreeaddress/QuadTreeAddress.java:462-505 | a rewrite flips the moved axis's bit, keeps the other bit, and carries on exactly when the step rolls over into the parent quadrant |
| Neighbors.ShiftLetters | QuadTreeAddress/src/de/okkyou/quadtreeaddress/QuadTreeAddress.java:462-481 | shifting keeps the length and yields letters only |
| Neighbors.Shift | QuadTreeAddress/src/de/okkyou/quadtreeaddress/QuadTreeAddress.java:456-459 | a shift succeeds exactly for valid strings of depth ≥ 1, otherwise it reports not deep enough; the result is valid and of the same length |
| Neighbors.LoopStep | QuadTreeAddress/src/de/okkyou/quadtreeaddress/QuadTreeAddress.java:462-481 | one pass of the descending loop either continues towards index 1 or stops with the finished string |
| Neighbors.ShiftHorizontal | QuadTreeAddress/src/de/okkyou/quadtreeaddress/QuadTreeAddress.java:456-483 | the in-place loop over a `char` array copy returns exactly `Shift(Horizontal(left), ·)` |
| Neighbors.ShiftVertically | QuadTreeAddress/src/de/okkyou/quadtreeaddress/QuadTreeAddress.java:485-512 | the in-place loop over a `char` array copy returns exactly `Shift(Vertical(down), ·)` |
| Neighbors.CarryLength | QuadTreeAddress/src/de/okkyou/quadtreeaddress/QuadTreeAddress.java:478-480 | the number of rewritten letters is between 1 and the depth |
| Neighbors.ShiftRewritesRun | QuadTreeAddress/src/de/okkyou/quadtreeaddress/QuadTreeAddress.java:462-481 | every letter before the stop index is unchanged and every letter from it on is rewritten |
| Neighbors.CarryStops | QuadTreeAddress/src/de/okkyou/quadtreeaddress/QuadTreeAddress.java:478-480 | the loop carries past every rewritten letter after the stop index and stops at the stop index unless it reached index 1 |
| Neighbors.CycleIsMod | QuadTreeAddress/src/de/okkyou/quadtreeaddress/QuadTreeAddress.java:456-512 | the wrap-around of a one-step move is the remainder mod the row length |
| Neighbors.ShiftWithin | QuadTreeAddress/src/de/okkyou/quadtreeaddress/QuadTreeAddress.java:456-512 | without roll-over the shift adds the step to the moved axis's numeral |
| Neighbors.ShiftAround | QuadTreeAddress/src/de/okkyou/quadtreeaddress/QuadTreeAddress.java:456-512 | at the edge the shift wraps round to the opposite edge |
| Neighbors.ShiftSteps | QuadTreeAddress/src/de/okkyou/quadtreeaddress/QuadTreeAddress.java:456-512 | a shift moves the moved axis's numeral by one step, cyclically |
| Neighbors.ShiftNumeral | QuadTreeAddress/src/de/okkyou/quadtreeaddress/QuadTreeAddress.java:456-512 | a shift adds the step to the moved axis's numeral mod 2^depth |
| Neighbors.ShiftKeepsOtherAxis | QuadTreeAddress/src/de/okkyou/quadtreeaddress/QuadTreeAddress.java:456-512 | a shift keeps the other axis's numeral |
| Neighbors.BitsDetermineLetter | QuadTreeAddress/src/de/okkyou/quadtreeaddress/QuadTreeAddress.java:30-38 | a letter is determined by its two bits |
| Neighbors.NumeralsDetermineLetters | QuadTreeAddress/src/de/okkyou/quadtreeaddress/QuadTreeAddress.java:30-38 | letters of equal length are determined by their two numerals |
| Neighbors.Opposite | QuadTreeAddress/src/de/okkyou/quadtreeaddress/QuadTreeAddress.java:443-454 | the opposite move moves the same axis in the other direction |
| Neighbors.OppositeStepsBack | QuadTreeAddress/src/de/okkyou/quadtreeaddress/QuadTreeAddress.java:456-512 | the opposite shift brings the moved numeral back |
| Neighbors.ShiftInverse | QuadTreeAddress/src/de/okkyou/quadtreeaddress/QuadTreeAddress.java:456-512 | the opposite shift undoes a shift of the letters |
| Neighbors.GetNorthernNeighbor | QuadTreeAddress/src/de/okkyou/quadtreeaddress/QuadTreeAddress.java:425-427 | defined exactly for valid strings of depth ≥ 1; the result is valid and of the same length |
| Neighbors.GetSouthernNeighbor | QuadTreeAddress/src/de/okkyou/quadtreeaddress/QuadTreeAddress.java:434-436 | defined exactly for valid strings of depth ≥ 1; the result is valid and of the same length |
| Neighbors.GetEasternNeighbor | QuadTreeAddress/src/de/okkyou/quadtreeaddress/QuadTreeAddress.java:443-445 | defined exactly for valid strings of depth ≥ 1; the result is valid and of the same length |
| Neighbors.GetWesternNeighbor | QuadTreeAddress/src/de/okkyou/quadtreeaddress/QuadTreeAddress.java:452-454 | defined exactly for valid strings of depth ≥ 1; the result is valid and of the same length |
| Neighbors.ShiftMovesTile | QuadTreeAddress/src/de/okkyou/quadtreeaddress/QuadTreeAddress.java:456-512 | a shift moves the tile one step, cyclically, along its axis and keeps the other coordinate |
| Neighbors.NorthernNeighborMoves | QuadTreeAddress/src/de/okkyou/quadtreeaddress/QuadTreeAddress.java:425-427 | north is one row up, mod 2^depth, in the same column |
| Neighbors.SouthernNeighborMoves | QuadTreeAddress/src/de/okkyou/quadtreeaddress/QuadTreeAddress.java:434-436 | south is one row down, mod 2^depth, in the same column |
| Neighbors.EasternNeighborMoves | QuadTreeAddress/src/de/okkyou/quadtreeaddress/QuadTreeAddress.java:443-445 | `getEasternNeighbor` moves one column towards the west (column − 1 mod 2^depth) in the same row |
| Neighbors.WesternNeighborMoves | QuadTreeAddress/src/de/okkyou/quadtreeaddress/QuadTreeAddress.java:452-454 | `getWesternNeighbor` moves one column towards the east (column + 1 mod 2^depth) in the same row |
| Neighbors.RowOfThree | QuadTreeAddress/src/de/okkyou/quadtreeaddress/QuadTreeAddress.java:399-404 | a tile and its two horizontal neighbours include the tile and are valid strings of its length |
| Neighbors.Sides | QuadTreeAddress/src/de/okkyou/quadtreeaddress/QuadTreeAddress.java:413-415 | the two horizontal neighbours are valid strings of the tile's length |
| Neighbors.GetNeighbors | QuadTreeAddress/src/de/okkyou/quadtreeaddress/QuadTreeAddress.java:390-418 | defined exactly for valid strings of depth ≥ 2, otherwise it reports not deep enough; every neighbour is valid and of the same length |
| Neighbors.ShiftUndone | QuadTreeAddress/src/de/okkyou/quadtreeaddress/QuadTreeAddress.java:456-512 | the opposite shift of a shifted string gives the string back |
| Neighbors.WesternUndoesEastern | QuadTreeAddress/src/de/okkyou/quadtreeaddress/QuadTreeAddress.java:443-454 | west of east is the tile itself |
| Neighbors.EasternUndoesWestern | QuadTreeAddress/src/de/okkyou/quadtreeaddress/QuadTreeAddress.java:443-454 | east of west is the tile itself |
| Neighbors.SouthernUndoesNorthern | QuadTreeAddress/src/de/okkyou/quadtreeaddress/QuadTreeAddress.java:425-436 | south of north is the tile itself |
| Neighbors.NorthernUndoesSouthern | QuadTreeAddress/src/de/okkyou/quadtreeaddress/QuadTreeAddress.java:425-436 | north of south is the tile itself |
| Neighbors.EightNeighbors | QuadTreeAddress/src/de/okkyou/quadtreeaddress/QuadTreeAddress.java:390-418 | from depth 2 on there are exactly eight neighbours and the tile is not one of them |
| Neighbors.NeighborRowsDiffer | QuadTreeAddress/src/de/okkyou/quadtreeaddress/QuadTreeAddress.java:398-411 | the northern row, the southern row and the tile's row are three different rows |
| Neighbors.RowOfThreeInRow | QuadTreeAddress/src/de/okkyou/quadtreeaddress/QuadTreeAddress.java:398-411 | from depth 2 on a tile and its horizontal neighbours are three tiles of one row |
| Neighbors.SidesInRow | QuadTreeAddress/src/de/okkyou/quadtreeaddress/QuadTreeAddress.java:412-415 | from depth 2 on the two horizontal neighbours are two other tiles of the same row |
| Neighbors.SidewaysApart | QuadTreeAddress/src/de/okkyou/quadtreeaddress/QuadTreeAddress.java:443-454 | from depth 2 on the horizontal neighbours are in the tile's row, in three different columns |
| NeighborExamples.NorthOfACAB | QuadTreeAddress/test/de/okkyou/quadtreeaddress/test/QuadTreeAddressTest.java:149-152 | north of `+ACAB` is `+AACD` |
| NeighborExamples.SouthOfACAB | QuadTreeAddress/test/de/okkyou/quadtreeaddress/test/QuadTreeAddressTest.java:161-164 | south of `+ACAB` is `+ACAD` |
| NeighborExamples.EastOfACAB | QuadTreeAddress/test/de/okkyou/quadtreeaddress/test/QuadTreeAddressTest.java:167-170 | east of `+ACAB` is `+ACAA` |
| NeighborExamples.WestOfACAB | QuadTreeAddress/test/de/okkyou/quadtreeaddress/test/QuadTreeAddressTest.java:179-182 | west of `+ACAB` is `+ACBA` |
| NeighborExamples.DiagonalsOfACAB | QuadTreeAddress/test/de/okkyou/quadtreeaddress/test/QuadTreeAddressTest.java:185-191 | the diagonal neighbours: east and west of `+AACD` are `+AACC` and `+AADC`, east and west of `+ACAD` are `+ACAC` and `+ACBC` |
| NeighborExamples.NeighborsAre | QuadTreeAddress/src/de/okkyou/quadtreeaddress/QuadTreeAddress.java:390-418 | the neighbour set is exactly {N, E(N), W(N), S, E(S), W(S), E, W} |
| NeighborExamples.NeighborsOfACAB | QuadTreeAddress/test/de/okkyou/quadtreeaddress/test/QuadTreeAddressTest.java:184-192 | the neighbours of `+ACAB` are exactly the eight strings the test lists |
| NeighborExamples.NorthOfCorner | QuadTreeAddress/test/de/okkyou/quadtreeaddress/test/QuadTreeAddressTest.java:154-158 | north of `+AAAAA` wraps round to `+CCCCC` |
| NeighborExamples.EastOfCorner | QuadTreeAddress/test/de/okkyou/quadtreeaddress/test/QuadTreeAddressTest.java:172-176 | east of `+AAAAA` wraps round to `+BBBBB` |
| NeighborExamples.NorthOfAllII | QuadTreeAddress/src/de/okkyou/quadtreeaddress/QuadTreeAddress.java:485-512 | north of a run of B letters rewrites every one of them to D |
| NeighborExamples.NorthAtMaxDepth | QuadTreeAddress/test/de/okkyou/quadtreeaddress/test/QuadTreeAddressTest.java:204-208 | north of `+` and 26 B letters is `+` and 26 D letters |
| Packing.FieldUnits | QuadTreeAddress/src/de/okkyou/quadtreeaddress/QuadTreeAddress.java:40-42 | the sector field is 2^52 units wide, the depth unit is 2^58, and the pre-mask is bits 0-51 and 58-62 |
| Packing.Sectors | QuadTreeAddress/src/de/okkyou/quadtreeaddress/QuadTreeAddress.java:619-636 | the sector sum of k letters is below 4^k |
| Packing.Packed | QuadTreeAddress/src/de/okkyou/quadtreeaddress/QuadTreeAddress.java:616-638 | the packed value of a valid string is non-negative and below 2^63, so bit 63 is zero |
| Packing.PackedFields | QuadTreeAddress/src/de/okkyou/quadtreeaddress/QuadTreeAddress.java:616-638 | the depth field holds the depth and the low 58 bits hold the sector sum, which is below 2^52 (bits 52-57 zero) |
| Packing.PreMaskedFields | QuadTreeAddress/src/de/okkyou/quadtreeaddress/QuadTreeAddress.java:651 | `& MINIMIZED_PRE_MASK` keeps the depth field and bits 0-51 and clears bits 52-57 |
| Packing.PreMasked | QuadTreeAddress/src/de/okkyou/quadtreeaddress/QuadTreeAddress.java:651 | `& MINIMIZED_PRE_MASK` on a non-negative value removes at most the six reserved bits (never more than 63 · 2^52) and leaves values below 2^52 unchanged |
| Packing.SectorAt | QuadTreeAddress/src/de/okkyou/quadtreeaddress/QuadTreeAddress.java:662-663 | `(x >> 2j) & MINIMIZED_SECTOR_MASK` is a 2-bit sector code |
| Packing.Letters | QuadTreeAddress/src/de/okkyou/quadtreeaddress/QuadTreeAddress.java:661-675 | unpacking k sectors yields k quadrant letters |
| Packing.LettersAt | QuadTreeAddress/src/de/okkyou/quadtreeaddress/QuadTreeAddress.java:661-675 | letter j of the unpacked string is the letter of bits 2j and 2j+1 |
| Packing.LettersOfSectors | QuadTreeAddress/src/de/okkyou/quadtreeaddress/QuadTreeAddress.java:616-678 | unpacking the sector sum of some letters gives them back, whatever lies above their bits |
| Packing.SectorsOfLetters | QuadTreeAddress/src/de/okkyou/quadtreeaddress/QuadTreeAddress.java:616-678 | packing unpacked sectors keeps exactly the low 2k bits |
| Packing.Unpacked | QuadTreeAddress/src/de/okkyou/quadtreeaddress/QuadTreeAddress.java:647-678 | fails only with the invalid-number error; on success the string is valid |
| Packing.UnpackedRefuses | QuadTreeAddress/src/de/okkyou/quadtreeaddress/QuadTreeAddress.java:648-658 | fails exactly for a negative number or a depth field above 26 |
| Packing.UnpackPacked | QuadTreeAddress/src/de/okkyou/quadtreeaddress/QuadTreeAddress.java:580-678 | unpacking the packed value of a valid string gives the string back |
| Packing.PackUnpacked | QuadTreeAddress/src/de/okkyou/quadtreeaddress/QuadTreeAddress.java:647-678 | packing an unpacked number keeps the depth field and the low 2·depth bits and drops bits 52-57 and every sector bit above 2·depth |
| Packing.PackUnpackedExactly | QuadTreeAddress/src/de/okkyou/quadtreeaddress/QuadTreeAddress.java:647-678 | packing an unpacked number gives the number back exactly when it has no bits between 2·depth and 57 |
| Packing.ToNumberRepresentation | QuadTreeAddress/src/de/okkyou/quadtreeaddress/QuadTreeAddress.java:616-638 | the descending accumulation loop returns exactly `Packed`: depth · 2^58 + Σ code(letter k) · 4^(k-1) |
| Packing.StringToNumberRepresentation | QuadTreeAddress/src/de/okkyou/quadtreeaddress/QuadTreeAddress.java:580-583 | an invalid string is refused with the invalid-string error, otherwise the result is `Packed` |
| Packing.ToLetterRepresentation | QuadTreeAddress/src/de/okkyou/quadtreeaddress/QuadTreeAddress.java:647-678 | the array-filling loop returns exactly `Unpacked` |
| Packing.SectorsAppend | QuadTreeAddress/src/de/okkyou/quadtreeaddress/QuadTreeAddress.java:619-636 | the sector sum of two strings joined is the first sum plus 4^|first| times the second |
| Packing.PackedExample | QuadTreeAddress/test/de/okkyou/quadtreeaddress/test/QuadTreeAddressTest.java:233-236 | `+ACDCDCBADCDABCDAABCDCBD` is valid and packs to 6629359005329988536 |
| Packing.UnpackedExamples | QuadTreeAddress/test/de/okkyou/quadtreeaddress/test/QuadTreeAddressTest.java:238-260 | 6629359005329988536 unpacks to `+ACDCDCBADCDABCDAABCDCBD`; -12 and the number with depth field 31 are refused |

## Left out

- `Wgs84Point(double, double)`, `getLatitudeInDegree` and `getLongitudeInDegree`: floating-point scaling; the model starts from the integer constructor.
- `toGeoJson` and both `toString` methods: string formatting of doubles, nothing to state beyond the fields.
- `hashCode` of both classes: library hashing; equality is modelled directly.
- The regular expression in `isValid`: the pattern `^\+[ABCD]*$` is an explicit character predicate (`Syntax.IsValid`), not a regex engine.
- Null arguments and `NullPointerException`: Dafny values are never null.
- The instance methods that only forward to a static one (`contains`, `shortenTo`, `getDepth`, `getNeighbors`, `toNumberRepresentation` on an address) and the field getters of `QuadTreeAddress`: these are the datatype's field selectors and the static functions themselves.
- The `IllegalStateException` branches of `toNumberRepresentation` and `toLetterRepresentation`: a valid string and a 2-bit mask leave no other case, so these branches cannot be reached.
- `HashSet` in `getNeighbors`: a Dafny `set<string>`.
- Packing.Unpacked: `& MINIMIZED_PRE_MASK` and `>> 2i & 3` are stated in integer arithmetic (clearing bits 52-57 by subtraction, `x / 4^i % 4`) on non-negative values, which is the only case that reaches them, rather than as bitwise operators.
- Address.CreateFromPoint: the loop body is the separate method `Address.BisectOnce`, and the centre point is the `Mid` of the final bounds as at lines 136-137.
- Address.ContainsPoint: the `IllegalArgumentException` of an invalid point cannot arise, since `Wgs84Point` values are range-checked by their type.
- Address.ShortenToDepth: a depth below −1 makes `substring` throw, reported as `IndexOutOfBounds`; −1 yields the empty string, which is rejected as invalid.

## Findings

| source | as written | input that shows it | evidently intended | confidence | as-written member | corrected member |
|---|---|---|---|---|---|---|
| QuadTreeAddress/src/de/okkyou/quadtreeaddress/QuadTreeAddress.java:101 | `lonUpperThreshold + lonLowerThreshold` is an `int` sum and wraps once it passes 2^31 - 1 | point (0, 1800000000): after two steps the bounds are [900000000, 1800000000]; the third midpoint sum 2700000000 wraps, and the longitude width grows from 900000000 to 2597483648 | the sum is taken as a `long`, so every step halves the tile | not executed | Bisection.JavaIntTileWidens | Bisection.WidenedTrailHalves |
| QuadTreeAddress/src/de/okkyou/quadtreeaddress/QuadTreeAddress.java:171 | the same wrapping sum while decoding letters | decoding `+BBA` gives longitude lower bound 900000000 above upper bound -797483648, so the corners describe no rectangle | lower ≤ upper on both axes after every decoded letter | not executed | Bisection.JavaIntInvertedRange | Bisection.WidenedReplayOrdered |
