/** The 64-bit perceptual hash of hash/phash.go: Hamming distance, the five
    multi-index-hashing blocks, and the text form.

    A uint64 is an integer below 2^64; shifting right by k is division by 2^k
    and masking with k ones is the remainder.
 */
module PHashing {
  import opened Wrappers
  import Hex

  type PHash = h: nat | h <= Hex.MAX_UINT64

  // -- Distance ----------------------------------------------------------

  /** a ^ b, bit by bit. */
  function Xor(a: nat, b: nat): nat {
    if a == 0 && b == 0 then 0 else 2 * Xor(a / 2, b / 2) + (a % 2 + b % 2) % 2
  }

  /** bits.OnesCount64. */
  function OnesCount(x: nat): nat {
    if x == 0 then 0 else x % 2 + OnesCount(x / 2)
  }

  function Hamming(a: nat, b: nat): nat {
    OnesCount(Xor(a, b))
  }

  /** Distance peels off one bit at a time. */
  lemma HammingByLowBit(a: nat, b: nat)
    ensures Hamming(a, b) == (if a % 2 == b % 2 then 0 else 1) + Hamming(a / 2, b / 2)
  {
    assert Xor(a, b) == 2 * Xor(a / 2, b / 2) + (a % 2 + b % 2) % 2;
    assert Xor(a, b) / 2 == Xor(a / 2, b / 2);
  }

  lemma {:induction false} HammingZeroMeansEqual(a: nat, b: nat)
    ensures Hamming(a, b) == 0 <==> a == b
  {
    if a != 0 || b != 0 {
      HammingByLowBit(a, b);
      HammingZeroMeansEqual(a / 2, b / 2);
    }
  }

  // -- Blocks ------------------------------------------------------------

  const BLOCKS := 5

  /** Blocks 0 to 3 are 13 bits from bits 51, 38, 25 and 12; block 4 is the low 12 bits. */
  function Block(h: PHash, i: nat): (b: nat)
    requires i < BLOCKS
    ensures b <= if i == 4 then 0xFFF else 0x1FFF
  {
    match i
    case 0 => h / 0x8_0000_0000_0000 % 0x2000
    case 1 => h / 0x40_0000_0000 % 0x2000
    case 2 => h / 0x200_0000 % 0x2000
    case 3 => h / 0x1000 % 0x2000
    case 4 => h % 0x1000
  }

  function BlockDistance(a: PHash, b: PHash, i: nat): nat
    requires i < BLOCKS
  {
    Hamming(Block(a, i), Block(b, i))
  }

  /** The low `k` bits, and the rest, one bit at a time. */
  function Low(x: nat, k: nat): nat
    decreases k, x
  {
    if k == 0 then 0 else 2 * Low(x / 2, k - 1) + x % 2
  }

  function High(x: nat, k: nat): nat
    decreases k, x
  {
    if k == 0 then x else High(x / 2, k - 1)
  }

  lemma FourBitsMore(x: nat, k: nat)
    ensures Low(x, k + 4) == 16 * Low(x / 16, k) + x % 16
    ensures High(x, k + 4) == High(x / 16, k)
  {
    assert Low(x, k + 4) == 4 * Low(x / 2 / 2, k + 2) + x / 2 % 2 * 2 + x % 2;
    assert Low(x / 4, k + 2) == 4 * Low(x / 4 / 2 / 2, k) + x / 4 / 2 % 2 * 2 + x / 4 % 2;
    assert High(x, k + 4) == High(x / 2 / 2, k + 2) == High(x / 2 / 2 / 2 / 2, k);
  }

  lemma TwelveBits(x: nat)
    ensures Low(x, 12) == x % 0x1000 && High(x, 12) == x / 0x1000
  {
    FourBitsMore(x, 8);
    FourBitsMore(x / 16, 4);
    FourBitsMore(x / 16 / 16, 0);
  }

  lemma ThirteenBits(x: nat)
    ensures Low(x, 13) == x % 0x2000 && High(x, 13) == x / 0x2000
  {
    TwelveBits(x / 2);
  }

  /** Distance splits at any bit position. */
  lemma {:induction false} HammingSplits(a: nat, b: nat, k: nat)
    ensures Hamming(a, b) == Hamming(Low(a, k), Low(b, k)) + Hamming(High(a, k), High(b, k))
    decreases k
  {
    hide Hamming;
    if k == 0 {
      NothingDiffers();
    } else {
      HammingSplits(a / 2, b / 2, k - 1);
      HammingByLowBit(a, b);
      HammingByLowBit(Low(a, k), Low(b, k));
      LowBitOfLow(a, k);
      LowBitOfLow(b, k);
      hide Low;
    }
  }

  lemma NothingDiffers()
    ensures Hamming(0, 0) == 0
  {
    assert Xor(0, 0) == 0;
  }

  lemma LowBitOfLow(x: nat, k: nat)
    requires k > 0
    ensures Low(x, k) % 2 == x % 2 && Low(x, k) / 2 == Low(x / 2, k - 1)
  {
  }

  lemma HammingSplitsAtFields(a: nat, b: nat)
    ensures Hamming(a, b) == Hamming(a % 0x1000, b % 0x1000) + Hamming(a / 0x1000, b / 0x1000)
    ensures Hamming(a, b) == Hamming(a % 0x2000, b % 0x2000) + Hamming(a / 0x2000, b / 0x2000)
  {
    HammingSplits(a, b, 12);
    HammingSplits(a, b, 13);
    TwelveBits(a);
    TwelveBits(b);
    ThirteenBits(a);
    ThirteenBits(b);
  }

  /** The five blocks partition the word: distances per block add up to the distance. */
  lemma HammingIsSumOfBlockDistances(a: PHash, b: PHash)
    ensures Hamming(a, b) == BlockDistance(a, b, 0) + BlockDistance(a, b, 1) + BlockDistance(a, b, 2)
                             + BlockDistance(a, b, 3) + BlockDistance(a, b, 4)
  {
    HammingSplitsAtFields(a, b);
    HammingSplitsAtFields(a / 0x1000, b / 0x1000);
    HammingSplitsAtFields(a / 0x200_0000, b / 0x200_0000);
    HammingSplitsAtFields(a / 0x40_0000_0000, b / 0x40_0000_0000);
    FieldsNest(a);
    FieldsNest(b);
  }

  lemma FieldsNest(h: PHash)
    ensures h / 0x1000 / 0x2000 == h / 0x200_0000
    ensures h / 0x200_0000 / 0x2000 == h / 0x40_0000_0000
    ensures h / 0x40_0000_0000 / 0x2000 == h / 0x8_0000_0000_0000
    ensures h / 0x8_0000_0000_0000 % 0x2000 == h / 0x8_0000_0000_0000
  {
  }

  /** The blocks put together are the hash: thirteen bits each from the top, twelve for the last. */
  lemma BlocksReassemble(h: PHash)
    ensures h == Block(h, 0) * 0x8_0000_0000_0000 + Block(h, 1) * 0x40_0000_0000 + Block(h, 2) * 0x200_0000
                 + Block(h, 3) * 0x1000 + Block(h, 4)
  {
    FieldsNest(h);
  }

  /** Two hashes agree exactly in some block. */
  ghost predicate ShareABlock(a: PHash, b: PHash) {
    exists i: nat :: i < BLOCKS && Block(a, i) == Block(b, i)
  }

  /** Any two hashes within distance four share a block. */
  lemma Pigeonhole(a: PHash, b: PHash)
    requires Hamming(a, b) <= 4
    ensures ShareABlock(a, b)
  {
    HammingIsSumOfBlockDistances(a, b);
    var i: nat :| i < BLOCKS && BlockDistance(a, b, i) == 0;
    HammingZeroMeansEqual(Block(a, i), Block(b, i));
  }

  /** Four is the best possible: with one differing bit in every block, no block is shared. */
  lemma PigeonholeIsTight()
    ensures exists a: PHash, b: PHash :: Hamming(a, b) == 5 && !ShareABlock(a, b)
  {
    var a: PHash, b: PHash := 0, 0x0008_0040_0200_1001;
    assert forall i: nat :: i < BLOCKS ==> Block(b, i) == 1 && Block(a, i) == 0;
    assert Hamming(0, 1) == 1;
    HammingIsSumOfBlockDistances(a, b);
    assert !ShareABlock(a, b);
  }

  // -- Text ----------------------------------------------------------------

  /** The canonical form: sixteen lowercase digits. */
  function ToString(h: PHash): string {
    Hex.PrintPadded(h, 16)
  }

  /** One to sixteen hex digits; Stash sends them unpadded. */
  function Parse(s: string): Option<PHash> {
    if s == "" || |s| > 16 then None else Hex.ParseUint(s, Hex.MAX_UINT64)
  }

  /** The padded form and the unpadded one both parse back to the hash they print. */
  lemma TextRoundTrip(h: PHash)
    ensures Parse(ToString(h)) == Some(h)
    ensures Parse(Hex.Print(h)) == Some(h)
  {
    Hex.EveryUint64Fits(h);
    Hex.PrintPaddedParses(h, 16, Hex.MAX_UINT64);
    Hex.PrintParses(h, Hex.MAX_UINT64);
    Hex.PrintIsShort(h, 16);
  }

  /** One to sixteen hex digits of either case parse, and nothing else. */
  lemma ParsesIff(s: string)
    ensures Parse(s).Some? <==> 1 <= |s| <= 16 && Hex.AllHexDigits(s)
  {
    if 1 <= |s| <= 16 {
      Hex.SixteenDigits();
      Hex.Pow16Grows(|s|, 16);
      Hex.DigitsParseIff(s, Hex.MAX_UINT64);
    }
  }

  // -- Bits -----------------------------------------------------------------------------

  function Bit(x: nat, i: nat): nat
    decreases i
  {
    if i == 0 then x % 2 else Bit(x / 2, i - 1)
  }

  /** Positions below `n` in which the two differ. */
  function Differing(a: nat, b: nat, n: nat): nat {
    if n == 0 then 0 else Differing(a, b, n - 1) + if Bit(a, n - 1) != Bit(b, n - 1) then 1 else 0
  }

  lemma {:induction false} DifferingByLowBit(a: nat, b: nat, n: nat)
    ensures Differing(a, b, n + 1) == (if a % 2 != b % 2 then 1 else 0) + Differing(a / 2, b / 2, n)
  {
    if n > 0 {
      DifferingByLowBit(a, b, n - 1);
    } else {
      assert Differing(a, b, 0) == 0 == Differing(a / 2, b / 2, 0);
    }
  }

  /** The distance is the number of positions in which the two differ. */
  lemma {:induction false} HammingCountsDifferingBits(a: nat, b: nat, n: nat)
    requires High(a, n) == 0 && High(b, n) == 0
    ensures Hamming(a, b) == Differing(a, b, n)
    decreases n
  {
    if n == 0 {
      NothingDiffers();
    } else {
      HammingCountsDifferingBits(a / 2, b / 2, n - 1);
      DifferingByLowBit(a, b, n - 1);
      HammingByLowBit(a, b);
    }
  }

  /** A hash has sixty-four. */
  lemma HashesHave64Bits(a: PHash, b: PHash)
    ensures Hamming(a, b) == Differing(a, b, 64)
  {
    hide Hamming, Differing, High;
    SixtyFourBits(a);
    SixtyFourBits(b);
    HammingCountsDifferingBits(a, b, 64);
  }

  lemma SixtyFourBits(h: PHash)
    ensures High(h, 64) == 0
  {
    HighInSteps(h, 13, 51);
    ThirteenBits(h);
    HighInSteps(h / 0x2000, 13, 38);
    ThirteenBits(h / 0x2000);
    HighInSteps(h / 0x2000 / 0x2000, 13, 25);
    ThirteenBits(h / 0x2000 / 0x2000);
    HighInSteps(h / 0x2000 / 0x2000 / 0x2000, 13, 12);
    ThirteenBits(h / 0x2000 / 0x2000 / 0x2000);
    TwelveBits(h / 0x2000 / 0x2000 / 0x2000 / 0x2000);
    hide High;
  }

  lemma {:induction false} HighInSteps(x: nat, j: nat, k: nat)
    ensures High(x, j + k) == High(High(x, j), k)
    decreases j
  {
    if j > 0 {
      HighInSteps(x / 2, j - 1, k);
    }
  }
}
