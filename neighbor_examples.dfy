/** The neighbour results pinned down by the library's own test suite, worked out letter by letter. */
module NeighborExamples {
  import opened Failures
  import opened Syntax
  import opened Neighbors

  /** Shifting a whole address whose letters shift as given. */
  lemma ShiftOfLetters(m: Move, quadTree: string, shifted: string)
    requires IsValid(quadTree) && |quadTree| >= 2
    requires ShiftLetters(m, quadTree[1..]) == shifted
    ensures Shift(m, quadTree) == Success([START_CHAR] + shifted)
  {
  }

  lemma NorthOfACAB()
    ensures GetNorthernNeighbor("+ACAB") == Success("+AACD")
  {
    assert IsValid("+ACAB") && "+ACAB"[1..] == "ACAB";
    assert "ACAB"[..3] == "ACA" && "ACA"[..2] == "AC" && "AC"[..1] == "A";
    assert ShiftLetters(Vertical(false), "AC") == "AA";
    assert ShiftLetters(Vertical(false), "ACA") == "AAC";
    ShiftOfLetters(Vertical(false), "+ACAB", "AACD");
    assert [START_CHAR] + "AACD" == "+AACD";
  }

  lemma SouthOfACAB()
    ensures GetSouthernNeighbor("+ACAB") == Success("+ACAD")
  {
    assert IsValid("+ACAB") && "+ACAB"[1..] == "ACAB";
    assert "ACAB"[..3] == "ACA";
    ShiftOfLetters(Vertical(true), "+ACAB", "ACAD");
    assert [START_CHAR] + "ACAD" == "+ACAD";
  }

  lemma EastOfACAB()
    ensures GetEasternNeighbor("+ACAB") == Success("+ACAA")
  {
    assert IsValid("+ACAB") && "+ACAB"[1..] == "ACAB";
    assert "ACAB"[..3] == "ACA";
    ShiftOfLetters(Horizontal(true), "+ACAB", "ACAA");
    assert [START_CHAR] + "ACAA" == "+ACAA";
  }

  lemma WestOfACAB()
    ensures GetWesternNeighbor("+ACAB") == Success("+ACBA")
  {
    assert IsValid("+ACAB") && "+ACAB"[1..] == "ACAB";
    assert "ACAB"[..3] == "ACA" && "ACA"[..2] == "AC";
    ShiftOfLetters(Horizontal(false), "+ACAB", "ACBA");
    assert [START_CHAR] + "ACBA" == "+ACBA";
  }

  /** The diagonal neighbours of "+ACAB": the sides of "+AACD" (north) and "+ACAD" (south). */
  lemma DiagonalsOfACAB()
    ensures GetEasternNeighbor("+AACD") == Success("+AACC")
    ensures GetWesternNeighbor("+AACD") == Success("+AADC")
    ensures GetEasternNeighbor("+ACAD") == Success("+ACAC")
    ensures GetWesternNeighbor("+ACAD") == Success("+ACBC")
  {
    assert IsValid("+AACD") && "+AACD"[1..] == "AACD";
    assert "AACD"[..3] == "AAC";
    ShiftOfLetters(Horizontal(true), "+AACD", "AACC");
    ShiftOfLetters(Horizontal(false), "+AACD", "AADC");
    assert [START_CHAR] + "AACC" == "+AACC";
    assert [START_CHAR] + "AADC" == "+AADC";
    assert IsValid("+ACAD") && "+ACAD"[1..] == "ACAD";
    assert "ACAD"[..3] == "ACA";
    ShiftOfLetters(Horizontal(true), "+ACAD", "ACAC");
    ShiftOfLetters(Horizontal(false), "+ACAD", "ACBC");
    assert [START_CHAR] + "ACAC" == "+ACAC";
    assert [START_CHAR] + "ACBC" == "+ACBC";
  }

  /** A row of three and the two sides, from a tile's two horizontal shifts. */
  lemma RowOfThreeIs(q: string, e: string, w: string)
    requires IsValid(q) && |q| >= 2
    requires GetEasternNeighbor(q) == Success(e) && GetWesternNeighbor(q) == Success(w)
    ensures RowOfThree(q) == {q, e, w} && Sides(q) == {e, w}
  {
  }

  /** The neighbour set assembled from the eight shifts. */
  lemma NeighborsAre(q: string, n: string, s: string, ne: string, nw: string, se: string, sw: string, e: string, w: string)
    requires IsValid(q) && |q| >= 3
    requires GetNorthernNeighbor(q) == Success(n) && GetSouthernNeighbor(q) == Success(s)
    requires GetEasternNeighbor(n) == Success(ne) && GetWesternNeighbor(n) == Success(nw)
    requires GetEasternNeighbor(s) == Success(se) && GetWesternNeighbor(s) == Success(sw)
    requires GetEasternNeighbor(q) == Success(e) && GetWesternNeighbor(q) == Success(w)
    ensures GetNeighbors(q) == Success({n, ne, nw, s, se, sw, e, w})
  {
    NeighborsOfRows(q, n, s);
    RowOfThreeIs(n, ne, nw);
    RowOfThreeIs(s, se, sw);
    RowOfThreeIs(q, e, w);
    UnionOfRows(n, ne, nw, s, se, sw, e, w);
  }

  /** The three rows of the neighbour set joined into one set of eight. */
  lemma UnionOfRows(n: string, ne: string, nw: string, s: string, se: string, sw: string, e: string, w: string)
    ensures {n, ne, nw} + {s, se, sw} + {e, w} == {n, ne, nw, s, se, sw, e, w}
  {
  }

  /** getNeighbors unfolded: the rows of three above and below, and the two sides. */
  lemma NeighborsOfRows(q: string, n: string, s: string)
    requires IsValid(q) && |q| >= 3
    requires GetNorthernNeighbor(q) == Success(n) && GetSouthernNeighbor(q) == Success(s)
    ensures IsValid(n) && |n| >= 2 && IsValid(s) && |s| >= 2
    ensures GetNeighbors(q) == Success(RowOfThree(n) + RowOfThree(s) + Sides(q))
  {
  }

  /** The neighbour set of "+ACAB": its row, the row above and the row below. */
  lemma NeighborsOfACAB()
    ensures GetNeighbors("+ACAB") == Success({"+AACD", "+AACC", "+AADC", "+ACAD", "+ACAC", "+ACBC", "+ACAA", "+ACBA"})
  {
    NorthOfACAB();
    SouthOfACAB();
    EastOfACAB();
    WestOfACAB();
    DiagonalsOfACAB();
    NeighborsAre("+ACAB", "+AACD", "+ACAD", "+AACC", "+AADC", "+ACAC", "+ACBC", "+ACAA", "+ACBA");
  }

  /** The top-left tile: the carry runs through every letter and wraps round to the bottom row. */
  lemma NorthOfCorner()
    ensures GetNorthernNeighbor("+AAAAA") == Success("+CCCCC")
  {
    assert IsValid("+AAAAA") && "+AAAAA"[1..] == "AAAAA";
    assert "AAAAA"[..4] == "AAAA" && "AAAA"[..3] == "AAA" && "AAA"[..2] == "AA" && "AA"[..1] == "A";
    assert ShiftLetters(Vertical(false), "AA") == "CC";
    assert ShiftLetters(Vertical(false), "AAA") == "CCC";
    assert ShiftLetters(Vertical(false), "AAAA") == "CCCC";
    ShiftOfLetters(Vertical(false), "+AAAAA", "CCCCC");
    assert [START_CHAR] + "CCCCC" == "+CCCCC";
  }

  /** The top-left tile: getEasternNeighbor wraps round to the rightmost column. */
  lemma EastOfCorner()
    ensures GetEasternNeighbor("+AAAAA") == Success("+BBBBB")
  {
    assert IsValid("+AAAAA") && "+AAAAA"[1..] == "AAAAA";
    assert "AAAAA"[..4] == "AAAA" && "AAAA"[..3] == "AAA" && "AAA"[..2] == "AA" && "AA"[..1] == "A";
    assert ShiftLetters(Horizontal(true), "AA") == "BB";
    assert ShiftLetters(Horizontal(true), "AAA") == "BBB";
    assert ShiftLetters(Horizontal(true), "AAAA") == "BBBB";
    ShiftOfLetters(Horizontal(true), "+AAAAA", "BBBBB");
    assert [START_CHAR] + "BBBBB" == "+BBBBB";
  }

  /** k copies of a character. */
  function Repeat(c: char, k: nat): (r: string)
    ensures |r| == k && forall i :: 0 <= i < k ==> r[i] == c
  {
    if k == 0 then [] else Repeat(c, k - 1) + [c]
  }

  /** Going north from a run of II the carry runs through every letter, and each becomes IV. */
  lemma {:induction false} NorthOfAllII(k: nat)
    ensures AllLetters(Repeat(II, k))
    ensures ShiftLetters(Vertical(false), Repeat(II, k)) == Repeat(IV, k)
  {
    if k > 0 {
      assert Repeat(II, k)[..k - 1] == Repeat(II, k - 1);
      NorthOfAllII(k - 1);
    }
  }

  /** The deepest address on the top row of the upper-right quadrant wraps round to the bottom row. */
  lemma NorthAtMaxDepth()
    ensures GetNorthernNeighbor([START_CHAR] + Repeat(II, MAX_DEPTH)) == Success([START_CHAR] + Repeat(IV, MAX_DEPTH))
  {
    var q := [START_CHAR] + Repeat(II, MAX_DEPTH);
    assert q[1..] == Repeat(II, MAX_DEPTH);
    NorthOfAllII(MAX_DEPTH);
    ShiftOfLetters(Vertical(false), q, Repeat(IV, MAX_DEPTH));
  }
}
