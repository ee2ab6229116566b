/**
 * The 64-bit number form of an address: the depth in bits 58-62, bits 52-57 reserved, and two
 * bits per letter from bit 0 upwards, the first letter lowest.
 */
module Packing {
  import opened Failures
  import opened Syntax

  /** A Java `long`. */
  type Int64 = x: int | -0x8000_0000_0000_0000 <= x < 0x8000_0000_0000_0000

  /** MINIMIZED_DEPTH_OFFSET: one unit of the depth field, 2^58. */
  const DEPTH_OFFSET: nat := 0x400_0000_0000_0000
  /** One unit of the reserved field, 2^52, just above the 26 letters' 52 bits. */
  const RESERVED_UNIT: nat := 0x10_0000_0000_0000
  /** MINIMIZED_PRE_MASK: every bit but the sign bit 63 and the reserved bits 52-57. */
  const PRE_MASK: nat := 0x7C0F_FFFF_FFFF_FFFF

  function Pow4(k: nat): (p: nat)
    ensures p >= 1
  {
    if k == 0 then 1 else 4 * Pow4(k - 1)
  }

  lemma {:induction false} Pow4Add(a: nat, b: nat)
    ensures Pow4(a + b) == Pow4(a) * Pow4(b)
    decreases a
  {
    if a > 0 {
      Pow4Add(a - 1, b);
    }
  }

  /** The 26 letters take 52 bits. */
  lemma Pow4MaxDepth()
    ensures Pow4(MAX_DEPTH) == RESERVED_UNIT
  {
    assert Pow4(6) == 0x1000;
    assert Pow4(13) == 0x400_0000;
    Pow4Add(13, 13);
  }

  /** The letters of every valid string fit below the reserved field, which fits below the depth field. */
  lemma FieldUnits(k: nat)
    requires k <= MAX_DEPTH
    ensures Pow4(k) * Pow4(MAX_DEPTH - k) == RESERVED_UNIT
    ensures RESERVED_UNIT * 64 == DEPTH_OFFSET
    ensures Pow4(k) * (Pow4(MAX_DEPTH - k) * 64) == DEPTH_OFFSET
    ensures PRE_MASK == DEPTH_OFFSET * 32 - 1 - 63 * RESERVED_UNIT
  {
    Pow4Add(k, MAX_DEPTH - k);
    Pow4MaxDepth();
    Associate(Pow4(k), Pow4(MAX_DEPTH - k), 64);
  }

  /** The sector codes of the letters, two bits each, the first letter in the lowest two bits. */
  function Sectors(t: string): (x: nat)
    requires AllLetters(t)
    ensures x < Pow4(|t|)
  {
    if |t| == 0 then 0 else Code(t[0]) + 4 * Sectors(t[1..])
  }

  /**
   * What toNumberRepresentation yields for a valid address: the depth times MINIMIZED_DEPTH_OFFSET
   * plus the sectors.
   */
  function Packed(quadTree: string): (n: nat)
    requires IsValid(quadTree)
    ensures n < 0x8000_0000_0000_0000
  {
    var k := |quadTree| - 1;
    FieldUnits(k);
    k * DEPTH_OFFSET + Sectors(quadTree[1..])
  }

  /** The fields of a packed address: the depth field, zero reserved bits, the sectors below. */
  lemma PackedFields(quadTree: string)
    requires IsValid(quadTree)
    ensures Packed(quadTree) / DEPTH_OFFSET == |quadTree| - 1
    ensures Packed(quadTree) % DEPTH_OFFSET == Sectors(quadTree[1..]) < RESERVED_UNIT
  {
    var k := |quadTree| - 1;
    FieldUnits(k);
    assert Sectors(quadTree[1..]) < Pow4(k) <= RESERVED_UNIT;
  }

  /**
   * `n & MINIMIZED_PRE_MASK` for a non-negative long, whose sign bit is already clear: the six
   * reserved bits are cleared.
   */
  function PreMasked(n: nat): (p: nat)
    ensures p <= n && n - p <= 63 * RESERVED_UNIT
    ensures n < RESERVED_UNIT ==> p == n
  {
    n - (n / RESERVED_UNIT) % 64 * RESERVED_UNIT
  }

  /** The pre-mask keeps the depth field and the 52 letter bits and zeroes the reserved field. */
  lemma PreMaskedFields(n: nat)
    ensures PreMasked(n) == n / DEPTH_OFFSET * DEPTH_OFFSET + n % RESERVED_UNIT
    ensures PreMasked(n) / DEPTH_OFFSET == n / DEPTH_OFFSET
    ensures PreMasked(n) % RESERVED_UNIT == n % RESERVED_UNIT
    ensures PreMasked(n) % DEPTH_OFFSET < RESERVED_UNIT
  {
    var q := n / RESERVED_UNIT;
    assert n == q * RESERVED_UNIT + n % RESERVED_UNIT;
    assert q == q / 64 * 64 + q % 64;
    assert n / DEPTH_OFFSET == q / 64;
  }

  /** `(x >> 2 * j) & MINIMIZED_SECTOR_MASK` for a non-negative x: the sector code at position j. */
  function SectorAt(x: nat, j: nat): (c: nat)
    ensures c < 4
  {
    x / Pow4(j) % 4
  }

  /** The first k letters encoded in x, the lowest two bits first. */
  function Letters(x: nat, k: nat): (r: string)
    ensures |r| == k && AllLetters(r)
  {
    if k == 0 then [] else [LetterOf(x % 4)] + Letters(x / 4, k - 1)
  }

  lemma DivUnique(x: nat, d: nat, q: nat, rem: nat)
    requires 0 <= rem < d && x == d * q + rem
    ensures x / d == q && x % d == rem
  {
    var q' := x / d;
    var rem' := x % d;
    assert x == d * q' + rem';
    if q' < q {
      MulMonotone(d, q' + 1, q);
      assert false;
    } else if q < q' {
      MulMonotone(d, q + 1, q');
      assert false;
    }
  }

  lemma MulMonotone(d: nat, a: nat, b: nat)
    requires a <= b
    ensures d * a <= d * b
  {
  }

  lemma Regroup(x: nat, a: nat, b: nat, m: nat, q: nat, r: nat, s: nat)
    requires x == a * m + s && m == b * q + r && s < a && r < b
    ensures x == (a * b) * q + (a * r + s) && a * r + s < a * b
  {
    MulMonotone(a, r + 1, b);
  }

  lemma DivDiv(x: nat, a: nat, b: nat)
    requires a > 0 && b > 0
    ensures x / a / b == x / (a * b)
  {
    Regroup(x, a, b, x / a, x / a / b, x / a % b, x % a);
    DivUnique(x, a * b, x / a / b, a * (x / a % b) + x % a);
  }

  lemma ModSplit(x: nat, m: nat)
    requires m > 0
    ensures x % (4 * m) == x % 4 + 4 * (x / 4 % m)
  {
    DivDiv(x, 4, m);
    assert x / 4 == m * (x / (4 * m)) + x / 4 % m;
    assert x == 4 * (x / 4) + x % 4;
    assert x == (4 * m) * (x / (4 * m)) + (x % 4 + 4 * (x / 4 % m));
  }

  /** The letter at position j is the one of the sector code at position j. */
  lemma {:induction false} LettersAt(x: nat, k: nat, j: nat)
    requires j < k
    ensures Letters(x, k)[j] == LetterOf(SectorAt(x, j))
    decreases j
  {
    if j > 0 {
      LettersAt(x / 4, k - 1, j - 1);
      DivDiv(x, 4, Pow4(j - 1));
    }
  }

  /** Reading the letters back from their sectors, whatever lies above them. */
  lemma {:induction false} LettersOfSectors(t: string, y: nat)
    requires AllLetters(t)
    ensures Letters(Sectors(t) + Pow4(|t|) * y, |t|) == t
  {
    if |t| > 0 {
      var x := Sectors(t) + Pow4(|t|) * y;
      assert x == Code(t[0]) + 4 * (Sectors(t[1..]) + Pow4(|t| - 1) * y);
      assert x % 4 == Code(t[0]) && x / 4 == Sectors(t[1..]) + Pow4(|t| - 1) * y;
      LettersOfSectors(t[1..], y);
      CodeIsInjective(t[0]);
    }
  }

  /** Encoding the first k letters of x gives back the low 2k bits of x. */
  lemma {:induction false} SectorsOfLetters(x: nat, k: nat)
    ensures Sectors(Letters(x, k)) == x % Pow4(k)
  {
    if k > 0 {
      var r := Letters(x, k);
      assert r[1..] == Letters(x / 4, k - 1);
      SectorsOfLetters(x / 4, k - 1);
      ModSplit(x, Pow4(k - 1));
    }
  }

  /**
   * What toLetterRepresentation yields: a negative number is refused; otherwise the pre-masked
   * number's depth field, when not above MAX_DEPTH, says how many letters to read from bit 0 up.
   */
  function Unpacked(n: Int64): (r: Result<string>)
    ensures r.Failure? ==> r.error == InvalidMinimized
    ensures r.Success? ==> IsValid(r.value)
  {
    if n < 0 then Failure(InvalidMinimized)
    else
      var pre := PreMasked(n);
      var depth := pre / DEPTH_OFFSET;
      if depth > MAX_DEPTH then Failure(InvalidMinimized)
      else Success([START_CHAR] + Letters(pre, depth))
  }

  /** A number is refused exactly when it is negative or its depth field exceeds MAX_DEPTH. */
  lemma UnpackedRefuses(n: Int64)
    ensures Unpacked(n).Failure? <==> n < 0 || n / DEPTH_OFFSET > MAX_DEPTH
  {
    if n >= 0 {
      PreMaskedFields(n);
    }
  }

  /** The depth field of a k-letter address, in units of 4^k. */
  function Above(k: nat): nat
    requires k <= MAX_DEPTH
  {
    k * Pow4(MAX_DEPTH - k) * 64
  }

  lemma Regather(k: nat, p: nat, c: nat, srt: nat)
    requires p * c == RESERVED_UNIT
    ensures k * DEPTH_OFFSET + srt == srt + p * (k * c * 64)
  {
    assert p * (k * c * 64) == k * 64 * (p * c);
  }

  /** The pre-mask leaves a packed address as it is, and its letters sit below a multiple of 4^depth. */
  lemma PackedLayout(quadTree: string)
    requires IsValid(quadTree)
    ensures PreMasked(Packed(quadTree)) == Packed(quadTree)
    ensures Packed(quadTree) / DEPTH_OFFSET == |quadTree| - 1
    ensures var k := |quadTree| - 1;
      Packed(quadTree) == Sectors(quadTree[1..]) + Pow4(k) * Above(k)
  {
    var k := |quadTree| - 1;
    var n := Packed(quadTree);
    PackedFields(quadTree);
    FieldUnits(k);
    PreMaskedFields(n);
    DivUnique(n, RESERVED_UNIT, k * 64, Sectors(quadTree[1..]));
    Regather(k, Pow4(k), Pow4(MAX_DEPTH - k), Sectors(quadTree[1..]));
  }

  /** Every valid address comes back from its number. */
  lemma UnpackPacked(quadTree: string)
    requires IsValid(quadTree)
    ensures Unpacked(Packed(quadTree)) == Success(quadTree)
  {
    var k := |quadTree| - 1;
    var t := quadTree[1..];
    var n := Packed(quadTree);
    var y := Above(k);
    PackedLayout(quadTree);
    assert Unpacked(n) == Success([START_CHAR] + Letters(n, k));
    assert n == Sectors(t) + Pow4(|t|) * y;
    LettersOfSectors(t, y);
    assert [START_CHAR] + t == quadTree;
  }

  lemma Associate(p: nat, c: nat, q: nat)
    ensures (p * c) * q == p * (q * c)
  {
  }

  lemma Distribute(x: nat, p: nat, c: nat, q: nat, r: nat, m: nat, s: nat)
    requires x == (p * c) * q + r && r == p * m + s
    ensures x == p * (q * c + m) + s
  {
    Associate(p, c, q);
  }

  lemma ModMod(x: nat, p: nat, c: nat)
    requires p > 0 && c > 0
    ensures x % (p * c) % p == x % p
  {
    var r := x % (p * c);
    Distribute(x, p, c, x / (p * c), r, r / p, r % p);
    DivUnique(x, p, x / (p * c) * c + r / p, r % p);
  }

  /** Below p a remainder modulo p is the number itself, and only there. */
  lemma ModBelow(x: nat, p: nat)
    requires p > 0
    ensures x % p == x <==> x < p
  {
    if x < p {
      DivUnique(x, p, 0, x);
    }
  }

  /** The letters read back from n are those of the pre-masked number, as many as n's depth field says. */
  lemma UnpackedLetters(n: Int64)
    requires Unpacked(n).Success?
    ensures n >= 0 && n / DEPTH_OFFSET <= MAX_DEPTH
    ensures Unpacked(n).value[1..] == Letters(PreMasked(n), n / DEPTH_OFFSET)
  {
    PreMaskedFields(n);
  }

  /**
   * The number of the address read back from n: the depth field and the letters' bits of n, with
   * the reserved field and any bit between the letters and the reserved field cleared.
   */
  lemma PackUnpacked(n: Int64)
    requires Unpacked(n).Success?
    ensures Packed(Unpacked(n).value) == n / DEPTH_OFFSET * DEPTH_OFFSET + n % Pow4(n / DEPTH_OFFSET)
  {
    var pre := PreMasked(n);
    var k := n / DEPTH_OFFSET;
    UnpackedLetters(n);
    PreMaskedFields(n);
    SectorsOfLetters(pre, k);
    FieldUnits(k);
    ModMod(pre, Pow4(k), Pow4(MAX_DEPTH - k));
    ModMod(n, Pow4(k), Pow4(MAX_DEPTH - k));
  }

  /** n comes back exactly when nothing but zeroes lies between its letters and its depth field. */
  lemma PackUnpackedExactly(n: Int64)
    requires Unpacked(n).Success?
    ensures Packed(Unpacked(n).value) == n <==> n % DEPTH_OFFSET < Pow4(n / DEPTH_OFFSET)
  {
    var k := n / DEPTH_OFFSET;
    PackUnpacked(n);
    UnpackedLetters(n);
    FieldUnits(k);
    ModMod(n, Pow4(k), Pow4(MAX_DEPTH - k) * 64);
    ModBelow(n % DEPTH_OFFSET, Pow4(k));
  }

  /** One loop step: a letter's code added below four times the sectors of the letters after it. */
  lemma SectorsStep(quadTree: string, i: nat)
    requires IsValid(quadTree) && 1 <= i < |quadTree|
    ensures Sectors(quadTree[i..]) == Code(quadTree[i]) + 4 * Sectors(quadTree[i + 1..])
  {
    assert quadTree[i..][1..] == quadTree[i + 1..];
  }

  /**
   * toNumberRepresentation of an address: the letters are read from the deepest one back to the
   * first, each code added and the sum shifted two bits left before every letter but the first.
   */
  method ToNumberRepresentation(quadTree: string) returns (n: Int64)
    requires IsValid(quadTree)
    ensures n == Packed(quadTree)
  {
    var sectors := 0;
    var depth := |quadTree| - 1;
    var offset := depth * DEPTH_OFFSET;
    var i := depth;
    while i > 0
      invariant 0 <= i <= depth
      invariant i == depth ==> sectors == 0
      invariant 0 < i < depth ==> sectors == 4 * Sectors(quadTree[i + 1..])
      invariant i == 0 ==> sectors == Sectors(quadTree[1..])
      decreases i
    {
      var sector := quadTree[i];
      if sector == I {
        sectors := sectors + 0;
      } else if sector == II {
        sectors := sectors + 1;
      } else if sector == III {
        sectors := sectors + 2;
      } else {
        // validation leaves IV as the only other character
        sectors := sectors + 3;
      }
      SectorsStep(quadTree, i);
      assert sectors == Sectors(quadTree[i..]);
      if i - 1 != 0 {
        sectors := sectors * 4;
      }
      i := i - 1;
    }
    assert offset + sectors == Packed(quadTree);
    n := offset + sectors;
  }

  /** toNumberRepresentation of a string: the string must first pass createFromQuadTreeString. */
  method StringToNumberRepresentation(quadTree: string) returns (r: Result<Int64>)
    ensures r.Success? <==> IsValid(quadTree)
    ensures r.Failure? ==> r.error == InvalidQuadTree
    ensures r.Success? ==> r.value == Packed(quadTree)
  {
    if !IsValid(quadTree) {
      return Failure(InvalidQuadTree);
    }
    var n := ToNumberRepresentation(quadTree);
    return Success(n);
  }

  /** toLetterRepresentation: the letters are filled into a char array from the first one on. */
  method ToLetterRepresentation(minimizedQuadTree: Int64) returns (r: Result<string>)
    ensures r == Unpacked(minimizedQuadTree)
  {
    if minimizedQuadTree < 0 {
      return Failure(InvalidMinimized);
    }
    var preMaskedQuadTree := PreMasked(minimizedQuadTree);
    var depth := preMaskedQuadTree / DEPTH_OFFSET;
    if depth > MAX_DEPTH {
      return Failure(InvalidMinimized);
    }
    var quadTreeChars := new char[depth];
    var i := 0;
    while i < depth
      invariant 0 <= i <= depth
      invariant forall j :: 0 <= j < i ==> quadTreeChars[j] == LetterOf(SectorAt(preMaskedQuadTree, j))
    {
      var sector := preMaskedQuadTree / Pow4(i) % 4;
      if sector == 0 {
        quadTreeChars[i] := I;
      } else if sector == 1 {
        quadTreeChars[i] := II;
      } else if sector == 2 {
        quadTreeChars[i] := III;
      } else {
        // a two-bit mask leaves 3 as the only other value
        quadTreeChars[i] := IV;
      }
      i := i + 1;
    }
    forall j | 0 <= j < depth
      ensures quadTreeChars[j] == Letters(preMaskedQuadTree, depth)[j]
    {
      LettersAt(preMaskedQuadTree, depth, j);
    }
    assert quadTreeChars[..] == Letters(preMaskedQuadTree, depth);
    return Success([START_CHAR] + quadTreeChars[..]);
  }

  /** The sectors of a longer string continue those of its prefix above the prefix's bits. */
  lemma {:induction false} SectorsAppend(a: string, b: string)
    requires AllLetters(a) && AllLetters(b)
    ensures AllLetters(a + b)
    ensures Sectors(a + b) == Sectors(a) + Pow4(|a|) * Sectors(b)
  {
    if |a| > 0 {
      assert (a + b)[0] == a[0] && (a + b)[1..] == a[1..] + b;
      SectorsAppend(a[1..], b);
      Spread(Code(a[0]), Sectors(a[1..]), Pow4(|a| - 1), Sectors(b));
    } else {
      assert a + b == b;
    }
  }

  lemma Spread(c: int, x: int, p: int, y: int)
    ensures c + 4 * (x + p * y) == (c + 4 * x) + (4 * p) * y
  {
  }

  lemma ExampleChunksLow()
    ensures AllLetters("ACDC") && Sectors("ACDC") == 184
    ensures AllLetters("DCBA") && Sectors("DCBA") == 27
    ensures AllLetters("DCDA") && Sectors("DCDA") == 59
  {
  }

  lemma ExampleChunksHigh()
    ensures AllLetters("BCDA") && Sectors("BCDA") == 57
    ensures AllLetters("ABCD") && Sectors("ABCD") == 228
    ensures AllLetters("CBD") && Sectors("CBD") == 54
  {
  }

  lemma Pow4Of4()
    ensures Pow4(4) == 256
  {
    assert Pow4(2) == 16;
  }

  /** The library's own test address, "+ACDCDCBADCDABCDAABCDCBD", written in chunks of four letters. */
  const EXAMPLE: string := "+" + ("ACDC" + ("DCBA" + ("DCDA" + ("BCDA" + ("ABCD" + "CBD")))))

  /** The test address and its number. */
  lemma PackedExample()
    ensures IsValid(EXAMPLE)
    ensures Packed(EXAMPLE) == 6629359005329988536
  {
    ExampleChunksLow();
    ExampleChunksHigh();
    Pow4Of4();
    var t5 := "ABCD" + "CBD";
    SectorsAppend("ABCD", "CBD");
    var t4 := "BCDA" + t5;
    SectorsAppend("BCDA", t5);
    var t3 := "DCDA" + t4;
    SectorsAppend("DCDA", t4);
    var t2 := "DCBA" + t3;
    SectorsAppend("DCBA", t3);
    var t1 := "ACDC" + t2;
    SectorsAppend("ACDC", t2);
    assert EXAMPLE[1..] == t1;
  }

  /** The number of the library's own test suite read back, and two refusals. */
  lemma UnpackedExamples()
    ensures Unpacked(6629359005329988536) == Success(EXAMPLE)
    ensures Unpacked(-12) == Failure(InvalidMinimized)
    ensures Unpacked(PRE_MASK) == Failure(InvalidMinimized)
  {
    PackedExample();
    UnpackPacked(EXAMPLE);
  }
}
