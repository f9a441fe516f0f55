/** Arithmetic on single bytes in AES's field, modulo x^8 + x^4 + x^3 + x + 1, and one row of a
    mixed column (src/core/crypto/aes.c; sections 4.2, 5.1.3 and 5.3.3 of FIPS 197). */
module AesField {

  /** `xtime`: doubling, the top bit coming back as 0x1B, that is, at bits 0, 1, 3 and 4. */
  function XTime(x: bv8): bv8 { (x << 1) ^ (x >> 7) ^ ((x >> 7) << 1) ^ ((x >> 7) << 3) ^ ((x >> 7) << 4) }

  /** ... as the code has it. */
  lemma XTimeAsCoded(x: bv8)
    ensures XTime(x) == (x << 1) ^ (((x >> 7) & 1) * 0x1B)
  {
  }

  /** `MixColumns` of a column's first row; the others by rotation. */
  function MixRow(a: bv8, b: bv8, c: bv8, d: bv8): bv8 { Coded(a, b, c, d, XTime(Add(a, b))) }

  /** Two, four and eight times one byte, one, two and eight times the next, and so on, added up. */
  function Combined(a2: bv8, a4: bv8, a8: bv8, b1: bv8, b2: bv8, b8: bv8, c1: bv8, c4: bv8, c8: bv8, d1: bv8,
                    d8: bv8): bv8
  {
    (a2 ^ a4 ^ a8) ^ (b1 ^ b2 ^ b8) ^ (c1 ^ c4 ^ c8) ^ (d1 ^ d8)
  }

  /** `InvMixColumns` of a column's first row: 0x0E, 0x0B, 0x0D and 0x09 times its bytes. */
  function UnmixRow(a: bv8, b: bv8, c: bv8, d: bv8): bv8
  {
    var a2, b2, c2, d2 := XTime(a), XTime(b), XTime(c), XTime(d);
    var a4, b4, c4, d4 := XTime(a2), XTime(b2), XTime(c2), XTime(d2);
    Combined(a2, a4, XTime(a4), b, b2, XTime(b4), c, c4, XTime(c4), d, XTime(d4))
  }

  /** Doubling distributes over addition. */
  lemma XTimeAdds(a: bv8, b: bv8)
    ensures XTime(a ^ b) == XTime(a) ^ XTime(b)
  {
  }

  /** Addition, by name: a sum of sums keeps its shape. */
  function Add(a: bv8, b: bv8): bv8 { a ^ b }

  lemma XTimeOfAdd(a: bv8, b: bv8)
    ensures XTime(Add(a, b)) == Add(XTime(a), XTime(b))
  {
    XTimeAdds(a, b);
  }

  /** A byte twice, the next three times, and two more: what mixing adds up. */
  function Five(p: bv8, q: bv8, r: bv8, s: bv8, t: bv8): bv8 { Add(Add(Add(p, Add(q, r)), s), t) }

  lemma FiveIs(p: bv8, q: bv8, r: bv8, s: bv8, t: bv8)
    ensures Five(p, q, r, s, t) == p ^ (q ^ r) ^ s ^ t
  {
  }

  lemma XTimeOfFive(p: bv8, q: bv8, r: bv8, s: bv8, t: bv8)
    ensures XTime(Five(p, q, r, s, t)) == Five(XTime(p), XTime(q), XTime(r), XTime(s), XTime(t))
  {
    XTimeOfAdd(Add(Add(p, Add(q, r)), s), t);
    XTimeOfAdd(Add(p, Add(q, r)), s);
    XTimeOfAdd(p, Add(q, r));
    XTimeOfAdd(q, r);
  }

  /** What a mixed byte adds up as the code has it, with v the doubling of its first two bytes. */
  function Coded(a: bv8, b: bv8, c: bv8, d: bv8, v: bv8): bv8 { a ^ v ^ (a ^ b ^ c ^ d) }

  lemma Cancelled(a: bv8, b: bv8, c: bv8, d: bv8, x: bv8, y: bv8, v: bv8)
    ensures v == x ^ y ==> Coded(a, b, c, d, v) == x ^ (y ^ b) ^ c ^ d
  {
  }

  lemma Regrouped(a: bv8, b: bv8, c: bv8, d: bv8, x: bv8, y: bv8)
    ensures Coded(a, b, c, d, Add(x, y)) == Five(x, y, b, c, d)
  {
    Cancelled(a, b, c, d, x, y, Add(x, y));
    FiveIs(x, y, b, c, d);
  }

  /** A mixed byte: its own twice, the next one three times, the other two once. */
  lemma MixedAsFive(a: bv8, b: bv8, c: bv8, d: bv8)
    ensures MixRow(a, b, c, d) == Five(XTime(a), XTime(b), b, c, d)
  {
    XTimeOfAdd(a, b);
    Regrouped(a, b, c, d, XTime(a), XTime(b));
  }

  lemma MixedOnce(a: bv8, b: bv8, c: bv8, d: bv8)
    ensures MixRow(a, b, c, d) == XTime(a) ^ (XTime(b) ^ b) ^ c ^ d
  {
    MixedAsFive(a, b, c, d);
    FiveIs(XTime(a), XTime(b), b, c, d);
  }

  /** Everything but the first byte itself comes in pairs. */
  lemma InPairs(a1: bv8, a2: bv8, a4: bv8, a8: bv8, a16: bv8, b1: bv8, b2: bv8, b4: bv8, b8: bv8, b16: bv8,
                c1: bv8, c2: bv8, c4: bv8, c8: bv8, c16: bv8, d1: bv8, d2: bv8, d4: bv8, d8: bv8, d16: bv8)
    ensures Combined(a4 ^ (b4 ^ b2) ^ c2 ^ d2, a8 ^ (b8 ^ b4) ^ c4 ^ d4, a16 ^ (b16 ^ b8) ^ c8 ^ d8,
                     b2 ^ (c2 ^ c1) ^ d1 ^ a1, b4 ^ (c4 ^ c2) ^ d2 ^ a2, b16 ^ (c16 ^ c8) ^ d8 ^ a8,
                     c2 ^ (d2 ^ d1) ^ a1 ^ b1, c8 ^ (d8 ^ d4) ^ a4 ^ b4, c16 ^ (d16 ^ d8) ^ a8 ^ b8,
                     d2 ^ (a2 ^ a1) ^ b1 ^ c1, d16 ^ (a16 ^ a8) ^ b8 ^ c8) == a1
  {
  }

  /** The doublings of a mixed byte are the mixed doublings. */
  lemma TwiceAsFive(a: bv8, b: bv8, c: bv8, d: bv8)
    ensures XTime(MixRow(a, b, c, d)) == Five(XTime(XTime(a)), XTime(XTime(b)), XTime(b), XTime(c), XTime(d))
  {
    MixedAsFive(a, b, c, d);
    XTimeOfFive(XTime(a), XTime(b), b, c, d);
  }

  lemma FourTimesAsFive(a: bv8, b: bv8, c: bv8, d: bv8)
    ensures XTime(XTime(MixRow(a, b, c, d)))
         == Five(XTime(XTime(XTime(a))), XTime(XTime(XTime(b))), XTime(XTime(b)), XTime(XTime(c)), XTime(XTime(d)))
  {
    TwiceAsFive(a, b, c, d);
    XTimeOfFive(XTime(XTime(a)), XTime(XTime(b)), XTime(b), XTime(c), XTime(d));
  }

  lemma EightTimesAsFive(a: bv8, b: bv8, c: bv8, d: bv8)
    ensures XTime(XTime(XTime(MixRow(a, b, c, d))))
         == Five(XTime(XTime(XTime(XTime(a)))), XTime(XTime(XTime(XTime(b)))), XTime(XTime(XTime(b))),
              XTime(XTime(XTime(c))), XTime(XTime(XTime(d))))
  {
    FourTimesAsFive(a, b, c, d);
    XTimeOfFive(XTime(XTime(XTime(a))), XTime(XTime(XTime(b))), XTime(XTime(b)), XTime(XTime(c)), XTime(XTime(d)));
  }

  lemma MixedTwice(a: bv8, b: bv8, c: bv8, d: bv8)
    ensures XTime(MixRow(a, b, c, d)) == XTime(XTime(a)) ^ (XTime(XTime(b)) ^ XTime(b)) ^ XTime(c) ^ XTime(d)
  {
    TwiceAsFive(a, b, c, d);
    FiveIs(XTime(XTime(a)), XTime(XTime(b)), XTime(b), XTime(c), XTime(d));
  }

  lemma MixedFourTimes(a: bv8, b: bv8, c: bv8, d: bv8)
    ensures XTime(XTime(MixRow(a, b, c, d)))
         == XTime(XTime(XTime(a))) ^ (XTime(XTime(XTime(b))) ^ XTime(XTime(b))) ^ XTime(XTime(c)) ^ XTime(XTime(d))
  {
    FourTimesAsFive(a, b, c, d);
    FiveIs(XTime(XTime(XTime(a))), XTime(XTime(XTime(b))), XTime(XTime(b)), XTime(XTime(c)), XTime(XTime(d)));
  }

  lemma MixedEightTimes(a: bv8, b: bv8, c: bv8, d: bv8)
    ensures XTime(XTime(XTime(MixRow(a, b, c, d))))
         == XTime(XTime(XTime(XTime(a)))) ^ (XTime(XTime(XTime(XTime(b)))) ^ XTime(XTime(XTime(b))))
            ^ XTime(XTime(XTime(c))) ^ XTime(XTime(XTime(d)))
  {
    EightTimesAsFive(a, b, c, d);
    FiveIs(XTime(XTime(XTime(XTime(a)))), XTime(XTime(XTime(XTime(b)))), XTime(XTime(XTime(b))),
              XTime(XTime(XTime(c))), XTime(XTime(XTime(d))));
  }

  /** Unmixing a mixed column gives its first byte back. */
  lemma UnmixMixed(a: bv8, b: bv8, c: bv8, d: bv8)
    ensures UnmixRow(MixRow(a, b, c, d), MixRow(b, c, d, a), MixRow(c, d, a, b), MixRow(d, a, b, c)) == a
  {
    MixedOnce(a, b, c, d);
    MixedTwice(a, b, c, d);
    MixedFourTimes(a, b, c, d);
    MixedEightTimes(a, b, c, d);
    MixedOnce(b, c, d, a);
    MixedTwice(b, c, d, a);
    MixedFourTimes(b, c, d, a);
    MixedEightTimes(b, c, d, a);
    MixedOnce(c, d, a, b);
    MixedTwice(c, d, a, b);
    MixedFourTimes(c, d, a, b);
    MixedEightTimes(c, d, a, b);
    MixedOnce(d, a, b, c);
    MixedTwice(d, a, b, c);
    MixedFourTimes(d, a, b, c);
    MixedEightTimes(d, a, b, c);
    var a2, b2, c2, d2 := XTime(a), XTime(b), XTime(c), XTime(d);
    var a4, b4, c4, d4 := XTime(a2), XTime(b2), XTime(c2), XTime(d2);
    var a8, b8, c8, d8 := XTime(a4), XTime(b4), XTime(c4), XTime(d4);
    InPairs(a, a2, a4, a8, XTime(a8), b, b2, b4, b8, XTime(b8), c, c2, c4, c8, XTime(c8), d, d2, d4, d8, XTime(d8));
  }
}
