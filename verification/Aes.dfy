/** AES-128 (src/core/crypto/aes.c): its steps on whole states, and that the inverse cipher undoes the
    cipher. */
module Aes {
  import opened AesTables
  import opened AesField

  const ROUNDS := 10

  /** One column of the state: its four rows. */
  datatype Column = Column(r0: bv8, r1: bv8, r2: bv8, r3: bv8)

  const ZEROS := Column(0, 0, 0, 0)

  /** The state, column by column, as its bytes lie in memory. */
  type Block = s: seq<Column> | |s| == 4 witness [ZEROS, ZEROS, ZEROS, ZEROS]

  // ---- the four steps and their inverses -----------------------------------------------------

  function XorColumn(c: Column, k: Column): Column { Column(c.r0 ^ k.r0, c.r1 ^ k.r1, c.r2 ^ k.r2, c.r3 ^ k.r3) }

  /** `AddRoundKey` with one round key. */
  function AddKey(s: Block, k: Block): Block { seq(4, i requires 0 <= i < 4 => XorColumn(s[i], k[i])) }

  function SubColumn(c: Column): Column { Column(Sbox(c.r0), Sbox(c.r1), Sbox(c.r2), Sbox(c.r3)) }
  function InvSubColumn(c: Column): Column { Column(InvSbox(c.r0), InvSbox(c.r1), InvSbox(c.r2), InvSbox(c.r3)) }

  function SubBytes(s: Block): Block { seq(4, i requires 0 <= i < 4 => SubColumn(s[i])) }
  function InvSubBytes(s: Block): Block { seq(4, i requires 0 <= i < 4 => InvSubColumn(s[i])) }

  /** Row r moves r columns to the left. */
  function ShiftRows(s: Block): Block
  {
    [Column(s[0].r0, s[1].r1, s[2].r2, s[3].r3), Column(s[1].r0, s[2].r1, s[3].r2, s[0].r3),
     Column(s[2].r0, s[3].r1, s[0].r2, s[1].r3), Column(s[3].r0, s[0].r1, s[1].r2, s[2].r3)]
  }

  /** Row r moves r columns to the right. */
  function InvShiftRows(s: Block): Block
  {
    [Column(s[0].r0, s[3].r1, s[2].r2, s[1].r3), Column(s[1].r0, s[0].r1, s[3].r2, s[2].r3),
     Column(s[2].r0, s[1].r1, s[0].r2, s[3].r3), Column(s[3].r0, s[2].r1, s[1].r2, s[0].r3)]
  }

  function MixColumn(c: Column): Column
  {
    Column(MixRow(c.r0, c.r1, c.r2, c.r3), MixRow(c.r1, c.r2, c.r3, c.r0),
           MixRow(c.r2, c.r3, c.r0, c.r1), MixRow(c.r3, c.r0, c.r1, c.r2))
  }

  function InvMixColumn(c: Column): Column
  {
    Column(UnmixRow(c.r0, c.r1, c.r2, c.r3), UnmixRow(c.r1, c.r2, c.r3, c.r0),
           UnmixRow(c.r2, c.r3, c.r0, c.r1), UnmixRow(c.r3, c.r0, c.r1, c.r2))
  }

  function MixColumns(s: Block): Block { seq(4, i requires 0 <= i < 4 => MixColumn(s[i])) }
  function InvMixColumns(s: Block): Block { seq(4, i requires 0 <= i < 4 => InvMixColumn(s[i])) }

  lemma XorTwice(a: bv8, k: bv8)
    ensures a ^ k ^ k == a
  {
  }

  lemma XorColumnTwice(c: Column, k: Column)
    ensures XorColumn(XorColumn(c, k), k) == c
  {
    XorTwice(c.r0, k.r0);
    XorTwice(c.r1, k.r1);
    XorTwice(c.r2, k.r2);
    XorTwice(c.r3, k.r3);
  }

  lemma AddKeyTwice(s: Block, k: Block)
    ensures AddKey(AddKey(s, k), k) == s
  {
    forall i | 0 <= i < 4
      ensures AddKey(AddKey(s, k), k)[i] == s[i]
    {
      XorColumnTwice(s[i], k[i]);
    }
  }

  lemma SubColumnInverse(c: Column)
    ensures InvSubColumn(SubColumn(c)) == c
  {
    SboxInverse(c.r0);
    SboxInverse(c.r1);
    SboxInverse(c.r2);
    SboxInverse(c.r3);
  }

  lemma SubInverse(s: Block)
    ensures InvSubBytes(SubBytes(s)) == s
  {
    forall i | 0 <= i < 4
      ensures InvSubBytes(SubBytes(s))[i] == s[i]
    {
      SubColumnInverse(s[i]);
    }
  }

  lemma ShiftInverse(s: Block)
    ensures InvShiftRows(ShiftRows(s)) == s
  {
    assert InvShiftRows(ShiftRows(s)) == [s[0], s[1], s[2], s[3]];
  }

  lemma MixColumnInverse(c: Column)
    ensures InvMixColumn(MixColumn(c)) == c
  {
    UnmixMixed(c.r0, c.r1, c.r2, c.r3);
    UnmixMixed(c.r1, c.r2, c.r3, c.r0);
    UnmixMixed(c.r2, c.r3, c.r0, c.r1);
    UnmixMixed(c.r3, c.r0, c.r1, c.r2);
  }

  lemma MixInverse(s: Block)
    ensures InvMixColumns(MixColumns(s)) == s
  {
    forall i | 0 <= i < 4
      ensures InvMixColumns(MixColumns(s))[i] == s[i]
    {
      MixColumnInverse(s[i]);
    }
  }

  // ---- the rounds --------------------------------------------------------------------------------

  type Keys = k: seq<Block> | |k| == ROUNDS + 1 witness seq(ROUNDS + 1, _ => [ZEROS, ZEROS, ZEROS, ZEROS])

  /** The state before round key n is added: n full rounds into the cipher. */
  function Unkeyed(rk: Keys, n: nat, s: Block): Block
    requires n < ROUNDS
  {
    if n == 0 then s else MixColumns(ShiftRows(SubBytes(AddKey(Unkeyed(rk, n - 1, s), rk[n - 1]))))
  }

  /** The whole cipher: the last round does not mix. */
  function Encrypted(rk: Keys, s: Block): Block
  {
    AddKey(ShiftRows(SubBytes(AddKey(Unkeyed(rk, ROUNDS - 1, s), rk[ROUNDS - 1]))), rk[ROUNDS])
  }

  /** The inverse cipher's state once round key n is off. */
  function Stripped(rk: Keys, n: nat, c: Block): Block
    requires n < ROUNDS
    decreases ROUNDS - n, 1
  {
    StripRound(Before(rk, n, c), rk[n])
  }

  /** ... and before the round that takes it off. */
  function Before(rk: Keys, n: nat, c: Block): Block
    requires n < ROUNDS
    decreases ROUNDS - n, 0
  {
    if n == ROUNDS - 1 then AddKey(c, rk[ROUNDS]) else InvMixColumns(Stripped(rk, n + 1, c))
  }

  /** One round of the inverse cipher, up to its mixing. */
  function StripRound(t: Block, k: Block): Block { AddKey(InvSubBytes(InvShiftRows(t)), k) }

  function Decrypted(rk: Keys, c: Block): Block { Stripped(rk, 0, c) }

  lemma UndoRound(u: Block, k: Block)
    ensures AddKey(InvSubBytes(InvShiftRows(ShiftRows(SubBytes(AddKey(u, k))))), k) == u
  {
    ShiftInverse(SubBytes(AddKey(u, k)));
    SubInverse(AddKey(u, k));
    AddKeyTwice(u, k);
  }

  /** The inverse cipher passes through the cipher's own states, last to first. */
  lemma {:induction false} StrippedIsUnkeyed(rk: Keys, n: nat, s: Block)
    requires n < ROUNDS
    ensures Stripped(rk, n, Encrypted(rk, s)) == Unkeyed(rk, n, s)
    decreases ROUNDS - n
  {
    UndoRound(Unkeyed(rk, n, s), rk[n]);
    if n == ROUNDS - 1 {
      AddKeyTwice(ShiftRows(SubBytes(AddKey(Unkeyed(rk, n, s), rk[n]))), rk[ROUNDS]);
    } else {
      StrippedIsUnkeyed(rk, n + 1, s);
      MixInverse(ShiftRows(SubBytes(AddKey(Unkeyed(rk, n, s), rk[n]))));
    }
  }

  /** `InvCipher` undoes `CipherSw` for every block and every key schedule. */
  lemma DecryptEncrypt(rk: Keys, s: Block)
    ensures Decrypted(rk, Encrypted(rk, s)) == s
  {
    StrippedIsUnkeyed(rk, 0, s);
  }
}
