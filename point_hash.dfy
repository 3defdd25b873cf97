/** hash/point.py: the point hash and point equality used to key tables by coordinate.

    The hash mixes four 32-bit words: the top and bottom halves of the IEEE-754 binary64 bit
    patterns of x and y. Converting a number to its bit pattern is a function parameter,
    `bits`, because it is a property of floating point and not of this program. */
module PointHash {
  import opened Base
  import Hash

  /** The top 32 bits of a 64-bit pattern (the first 32 characters of its binary string). */
  function Hi(b: bv64): (w: bv64)
    ensures w < 0x1_0000_0000
  {
    b >> 32
  }

  /** The bottom 32 bits of a 64-bit pattern. */
  function Lo(b: bv64): (w: bv64)
    ensures w < 0x1_0000_0000
  {
    b & 0xFFFF_FFFF
  }

  /** The hash of a position: h0 = hi(x) ^ lo(x), then ((h0 << 5) ^ (h0 >> 7) ^ hi(y) ^ lo(y))
      masked to 31 bits. Python's shifts are unbounded; in 64 bits nothing is lost because h0
      has only 32 (ShiftIsExact). */
  function PointHash(bits: real -> bv64, p: Pos): (h: bv64)
    ensures h < 0x8000_0000
  {
    var h0 := Hi(bits(p.x)) ^ Lo(bits(p.x));
    var h1 := (h0 << 5) ^ (h0 >> 7) ^ Hi(bits(p.y)) ^ Lo(bits(p.y));
    h1 & 0x7FFF_FFFF
  }

  /** The hash as the integer the tables use. */
  function HashOf(bits: real -> bv64, p: Pos): int
  {
    PointHash(bits, p) as int
  }

  /** The left shift by 5 of a 32-bit word keeps every bit (shifting back restores it), so the
      64-bit computation agrees with Python's unbounded integers. */
  lemma ShiftIsExact(h0: bv64)
    requires h0 < 0x1_0000_0000
    ensures (h0 << 5) >> 5 == h0
    ensures (h0 << 5) < 0x20_0000_0000
  {
  }

  /** `equal`: whole-position equality. */
  function PointEqual(p: Pos, q: Pos): (b: bool)
    ensures b <==> p.x == q.x && p.y == q.y
  {
    p == q
  }

  /** Point equality is identity, so every hash agrees with it and the point tables satisfy
      what the hash tables rely on. Reals have a single zero, so the 0.0 / -0.0 exception of
      binary64 does not arise here. */
  lemma PointTableProper(hash: Pos -> int)
    ensures Hash.Proper(hash, PointEqual)
  {
  }
}
