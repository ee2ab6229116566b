/** The textual address: a start character followed by up to MAX_DEPTH quadrant letters. */
module Syntax {
  import opened Failures

  const START_CHAR: char := '+'
  const MAX_DEPTH: nat := 26

  /** Upper-left, upper-right, lower-left and lower-right quadrant. */
  const I: char := 'A'
  const II: char := 'B'
  const III: char := 'C'
  const IV: char := 'D'

  predicate IsLetter(c: char) {
    c == I || c == II || c == III || c == IV
  }

  /** The 2-bit sector code of a letter: 00 for I, 01 for II, 10 for III, 11 for IV. */
  function Code(c: char): (k: nat)
    requires IsLetter(c)
    ensures k < 4
  {
    if c == I then 0 else if c == II then 1 else if c == III then 2 else 3
  }

  /** The letter of a 2-bit sector code; it inverts Code. */
  function LetterOf(k: nat): (c: char)
    requires k < 4
    ensures IsLetter(c) && Code(c) == k
  {
    if k == 0 then I else if k == 1 then II else if k == 2 then III else IV
  }

  lemma CodeIsInjective(c: char)
    requires IsLetter(c)
    ensures LetterOf(Code(c)) == c
  {
  }

  /** 1 for the lower half (III, IV): the high bit of the sector code. */
  function LatBit(c: char): nat
    requires IsLetter(c)
  {
    Code(c) / 2
  }

  /** 1 for the right half (II, IV): the low bit of the sector code. */
  function LonBit(c: char): nat
    requires IsLetter(c)
  {
    Code(c) % 2
  }

  /** The letter of the quadrant chosen by one half per axis. */
  function Quadrant(lower: bool, right: bool): (c: char)
    ensures IsLetter(c)
    ensures LatBit(c) == (if lower then 1 else 0) && LonBit(c) == (if right then 1 else 0)
  {
    LetterOf((if lower then 2 else 0) + (if right then 1 else 0))
  }

  /** The pattern `[ABCD]*`, read one character at a time. */
  function AllLetters(t: string): (r: bool)
    ensures r <==> forall i :: 0 <= i < |t| ==> IsLetter(t[i])
  {
    |t| == 0 || (IsLetter(t[0]) && AllLetters(t[1..]))
  }

  /** `isValid`: not deeper than MAX_DEPTH, and the whole string matches `^\+[ABCD]*$`. */
  function IsValid(quadTree: string): (r: bool)
    ensures r <==> && 1 <= |quadTree| <= MAX_DEPTH + 1
                   && quadTree[0] == START_CHAR
                   && forall i :: 1 <= i < |quadTree| ==> IsLetter(quadTree[i])
  {
    if |quadTree| - 1 > MAX_DEPTH then false
    else |quadTree| >= 1 && quadTree[0] == START_CHAR && AllLetters(quadTree[1..])
  }

  /** A valid string holds its start character at index 0 and nowhere else. */
  lemma StartCharOnlyFirst(quadTree: string, i: int)
    requires IsValid(quadTree) && 0 <= i < |quadTree|
    ensures quadTree[i] == START_CHAR <==> i == 0
  {
  }

  /** `getDepth`: the number of letters of a valid string. */
  function GetDepth(quadTree: string): (r: Result<nat>)
    ensures r.Success? <==> IsValid(quadTree)
    ensures r.Success? ==> r.value <= MAX_DEPTH && |quadTree| == r.value + 1
    ensures r.Failure? ==> r.error == InvalidQuadTree
  {
    if !IsValid(quadTree) then Failure(InvalidQuadTree) else Success(|quadTree| - 1)
  }

  lemma ValidationExamples()
    ensures !IsValid("ACABACAB") && !IsValid("+BAEA") && !IsValid("")
    ensures IsValid("+ACABD") && GetDepth("+ACABD") == Success(5)
    ensures IsValid("+") && GetDepth("+") == Success(0)
    ensures !IsValid("+AAAAAAAAAAAAAAAAAAAAAAAAAAA")
  {
    assert "+BAEA"[3] == 'E';
  }
}
