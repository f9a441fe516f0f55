/** The substitution of src/core/crypto/aes.c as section 5.1.1 of FIPS 197 defines it, and where its
    row shifts take a byte from. */
module AesLaws {
  import opened AesTables
  import opened AesField
  import opened Aes

  /** x where a bit of b is set. */
  function Masked(x: bv8, b: bv8, k: bv8): bv8 { if b & k == 0 then 0 else x }

  /** The product of two bytes in the field: the doublings of one, added up by the bits of the other. */
  function Times(a: bv8, b: bv8): bv8 {
    var a2 := XTime(a);
    var a4 := XTime(a2);
    var a8 := XTime(a4);
    var a16 := XTime(a8);
    var a32 := XTime(a16);
    var a64 := XTime(a32);
    Masked(a, b, 1) ^ Masked(a2, b, 2) ^ Masked(a4, b, 4) ^ Masked(a8, b, 8)
    ^ Masked(a16, b, 16) ^ Masked(a32, b, 32) ^ Masked(a64, b, 64) ^ Masked(XTime(a64), b, 128)
  }

  /** A byte and its four rotations to the left added up, and 0x63. */
  function Affine(b: bv8): bv8 {
    b ^ ((b << 1) | (b >> 7)) ^ ((b << 2) | (b >> 6)) ^ ((b << 3) | (b >> 5)) ^ ((b << 4) | (b >> 4)) ^ 0x63
  }

  /** The way back: rotations by one, three and six, and 0x05. */
  function Unaffine(b: bv8): bv8 { ((b << 1) | (b >> 7)) ^ ((b << 3) | (b >> 5)) ^ ((b << 6) | (b >> 2)) ^ 0x05 }

  lemma AffineBack(b: bv8)
    ensures Affine(Unaffine(b)) == b && Unaffine(Affine(b)) == b
  {
  }

  lemma Inverts0(x: bv8)
    requires 0 < x < 0x40
    ensures Times(Unaffine(Sbox(x)), x) == 1
  {
  }

  lemma Inverts1(x: bv8)
    requires 0x40 <= x < 0x80
    ensures Times(Unaffine(Sbox(x)), x) == 1
  {
  }

  lemma Inverts2(x: bv8)
    requires 0x80 <= x < 0xC0
    ensures Times(Unaffine(Sbox(x)), x) == 1
  {
  }

  lemma Inverts3(x: bv8)
    requires 0xC0 <= x
    ensures Times(Unaffine(Sbox(x)), x) == 1
  {
  }

  lemma Only0(x: bv8, i: bv8)
    requires 0 < x < 0x20
    ensures Times(i, x) == 1 ==> i == Unaffine(Sbox(x))
  {
  }

  lemma Only1(x: bv8, i: bv8)
    requires 0x20 <= x < 0x40
    ensures Times(i, x) == 1 ==> i == Unaffine(Sbox(x))
  {
  }

  lemma Only2(x: bv8, i: bv8)
    requires 0x40 <= x < 0x60
    ensures Times(i, x) == 1 ==> i == Unaffine(Sbox(x))
  {
  }

  lemma Only3(x: bv8, i: bv8)
    requires 0x60 <= x < 0x80
    ensures Times(i, x) == 1 ==> i == Unaffine(Sbox(x))
  {
  }

  lemma Only4(x: bv8, i: bv8)
    requires 0x80 <= x < 0xA0
    ensures Times(i, x) == 1 ==> i == Unaffine(Sbox(x))
  {
  }

  lemma Only5(x: bv8, i: bv8)
    requires 0xA0 <= x < 0xC0
    ensures Times(i, x) == 1 ==> i == Unaffine(Sbox(x))
  {
  }

  lemma Only6(x: bv8, i: bv8)
    requires 0xC0 <= x < 0xE0
    ensures Times(i, x) == 1 ==> i == Unaffine(Sbox(x))
  {
  }

  lemma Only7(x: bv8, i: bv8)
    requires 0xE0 <= x
    ensures Times(i, x) == 1 ==> i == Unaffine(Sbox(x))
  {
  }

  lemma OnlyInverse(x: bv8, i: bv8)
    requires x != 0
    ensures Times(i, x) == 1 ==> i == Unaffine(Sbox(x))
  {
    if x < 0x20 {
      Only0(x, i);
    } else if x < 0x40 {
      Only1(x, i);
    } else if x < 0x60 {
      Only2(x, i);
    } else if x < 0x80 {
      Only3(x, i);
    } else if x < 0xA0 {
      Only4(x, i);
    } else if x < 0xC0 {
      Only5(x, i);
    } else if x < 0xE0 {
      Only6(x, i);
    } else {
      Only7(x, i);
    }
  }

  lemma Inverts(x: bv8)
    requires x != 0
    ensures Times(Unaffine(Sbox(x)), x) == 1
  {
    if x < 0x40 {
      Inverts0(x);
    } else if x < 0x80 {
      Inverts1(x);
    } else if x < 0xC0 {
      Inverts2(x);
    } else {
      Inverts3(x);
    }
  }

  /** The substitution of a byte is the affine map of its inverse in the field, that of zero the map of
      zero. */
  lemma SboxIsAffine(x: bv8, i: bv8)
    ensures x != 0 ==> (Sbox(x) == Affine(i) <==> Times(i, x) == 1)
    ensures x == 0 ==> Sbox(x) == Affine(0) == 0x63
  {
    if x == 0 {
      assert Sbox(0) == 0x63;
    } else {
      OnlyInverse(x, i);
      Inverts(x);
      AffineIsOne(Sbox(x), i);
    }
  }

  lemma AffineIsOne(y: bv8, i: bv8)
    ensures y == Affine(i) <==> i == Unaffine(y)
  {
    AffineBack(y);
    AffineBack(i);
  }

  // ---- the other steps ------------------------------------------------------------------------

  /** Row r of column c comes from column c + r ... */
  lemma ShiftedFrom(s: Block, c: nat)
    requires c < 4
    ensures ShiftRows(s)[c] == Column(s[c].r0, s[(c + 1) % 4].r1, s[(c + 2) % 4].r2, s[(c + 3) % 4].r3)
  {
    if c == 0 {
    } else if c == 1 {
    } else if c == 2 {
    } else {
    }
  }

  /** ... and on the way back from column c - r. */
  lemma UnshiftedFrom(s: Block, c: nat)
    requires c < 4
    ensures InvShiftRows(s)[c] == Column(s[c].r0, s[(c + 3) % 4].r1, s[(c + 2) % 4].r2, s[(c + 1) % 4].r3)
  {
    if c == 0 {
    } else if c == 1 {
    } else if c == 2 {
    } else {
    }
  }

  /** Twice one byte, three times the next, and two more (section 5.1.3). */
  function Mixture(a: bv8, b: bv8, c: bv8, d: bv8): bv8 { XTime(a) ^ (XTime(b) ^ b) ^ c ^ d }

  lemma MixedRow(a: bv8, b: bv8, c: bv8, d: bv8)
    ensures MixRow(a, b, c, d) == Mixture(a, b, c, d)
  {
    MixedOnce(a, b, c, d);
  }

  /** A mixed column: each row mixes its own byte with the three below, counted round. */
  lemma MixedColumn(k: Column)
    ensures MixColumn(k) == Column(Mixture(k.r0, k.r1, k.r2, k.r3), Mixture(k.r1, k.r2, k.r3, k.r0),
                                   Mixture(k.r2, k.r3, k.r0, k.r1), Mixture(k.r3, k.r0, k.r1, k.r2))
  {
    MixedRow(k.r0, k.r1, k.r2, k.r3);
    MixedRow(k.r1, k.r2, k.r3, k.r0);
    MixedRow(k.r2, k.r3, k.r0, k.r1);
    MixedRow(k.r3, k.r0, k.r1, k.r2);
  }

  /** A full round, and its key. */
  ghost predicate FullRound(s: Block, k: Block, t: Block) { t == AddKey(MixColumns(ShiftRows(SubBytes(s))), k) }

  /** The first n states of the cipher, each with its round key on. */
  ghost predicate Rounds(rk: Keys, s: Block, t: seq<Block>, n: nat) {
    n <= 9 && |t| == n + 1 && t[0] == AddKey(s, rk[0]) && forall k | 0 <= k < n :: FullRound(t[k], rk[k + 1], t[k + 1])
  }

  lemma OneRound(rk: Keys, n: nat, s: Block)
    requires n < 9
    ensures FullRound(AddKey(Unkeyed(rk, n, s), rk[n]), rk[n + 1], AddKey(Unkeyed(rk, n + 1, s), rk[n + 1]))
  {
  }

  lemma MoreRounds(rk: Keys, s: Block, t: seq<Block>, n: nat, u: Block)
    requires n < 9 && Rounds(rk, s, t, n) && FullRound(t[n], rk[n + 1], u)
    ensures Rounds(rk, s, t + [u], n + 1)
  {
    var r := t + [u];
    forall k | 0 <= k < n + 1 ensures FullRound(r[k], rk[k + 1], r[k + 1]) {
      if k < n { assert FullRound(t[k], rk[k + 1], t[k + 1]); }
    }
  }

  lemma {:induction false} FirstRounds(rk: Keys, s: Block, n: nat) returns (t: seq<Block>)
    requires n <= 9
    ensures Rounds(rk, s, t, n) && t[n] == AddKey(Unkeyed(rk, n, s), rk[n])
  {
    if n == 0 {
      t := [AddKey(s, rk[0])];
    } else {
      t := FirstRounds(rk, s, n - 1);
      OneRound(rk, n - 1, s);
      var u := AddKey(Unkeyed(rk, n, s), rk[n]);
      MoreRounds(rk, s, t, n - 1, u);
      t := t + [u];
    }
  }

  /** The cipher (section 5.1): the first round key, nine full rounds, and a last one that does not
      mix. */
  lemma TenRounds(rk: Keys, s: Block) returns (t: seq<Block>)
    ensures |t| == 10 && t[0] == AddKey(s, rk[0]) && forall k | 0 <= k < 9 :: FullRound(t[k], rk[k + 1], t[k + 1])
    ensures Encrypted(rk, s) == AddKey(ShiftRows(SubBytes(t[9])), rk[10])
  {
    t := FirstRounds(rk, s, 9);
  }
}
