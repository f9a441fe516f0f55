/** What KEY1's cipher and key schedule compute, in numbers (src/core/cart/cart.cpp). */
module KeyLaws {
  import opened Key1
  import opened SecureArea

  // ---- bytes of a word --------------------------------------------------------------------------

  /** A word from its bytes, the highest first. */
  function Word4(a: bv8, b: bv8, c: bv8, d: bv8): Word {
    Word(((a as bv32) << 24) | ((b as bv32) << 16) | ((c as bv32) << 8) | (d as bv32))
  }

  lemma Octet3(a: bv8, b: bv8, c: bv8, d: bv8)
    ensures Octet(Word4(a, b, c, d), 3) == a as nat
  {
  }

  lemma Octet2(a: bv8, b: bv8, c: bv8, d: bv8)
    ensures Octet(Word4(a, b, c, d), 2) == b as nat
  {
  }

  lemma Octet1(a: bv8, b: bv8, c: bv8, d: bv8)
    ensures Octet(Word4(a, b, c, d), 1) == c as nat
  {
  }

  lemma Octet0(a: bv8, b: bv8, c: bv8, d: bv8)
    ensures Octet(Word4(a, b, c, d), 0) == d as nat
  {
  }

  lemma SwappedIs(a: bv8, b: bv8, c: bv8, d: bv8)
    ensures Swapped(Word4(a, b, c, d)) == Word4(d, c, b, a)
  {
  }

  /** Shifts by one: the low bit and the high bit are lost. */
  lemma HalvedIs(v: bv32)
    ensures Halved(Word(v)) == Word(v / 2)
  {
  }

  lemma DoubledIs(v: bv32)
    ensures Doubled(Word(v)) == Word(v + v)
  {
  }

  // ---- the rounds ---------------------------------------------------------------------------------

  /** The round function on bytes a, b, c, d: the entry of each byte in a table of its own, the first two
      added, the third one's bits flipped in, the fourth added. */
  lemma RoundFunction(key: seq<Word>, a: bv8, b: bv8, c: bv8, d: bv8)
    requires |key| == TABLE
    ensures F(key, Word4(a, b, c, d)) ==
      Plus(Xor(Plus(key[0x12 + a as nat], key[0x112 + b as nat]), key[0x212 + c as nat]), key[0x312 + d as nat])
  {
    Octet3(a, b, c, d);
    Octet2(a, b, c, d);
    Octet1(a, b, c, d);
    Octet0(a, b, c, d);
  }

  /** Blocks from one round to the next under key word k. */
  ghost predicate OneRound(key: seq<Word>, k: nat, h: Halves, g: Halves)
    requires |key| == TABLE && k < 0x12
  {
    g.y == Xor(key[k], h.x) && g.x == Xor(F(key, g.y), h.y)
  }

  ghost predicate RoundsTo(key: seq<Word>, t: seq<Halves>, n: nat)
    requires |key| == TABLE
  {
    n <= 0x10 && |t| == n + 1 && forall k | 0 <= k < n :: OneRound(key, k, t[k], t[k + 1])
  }

  lemma {:induction false} FirstRounds(key: seq<Word>, h: Halves, n: nat) returns (t: seq<Halves>)
    requires |key| == TABLE && n <= 0x10
    ensures RoundsTo(key, t, n) && t[0] == h && t[n] == Forward(key, n, h)
  {
    if n == 0 {
      t := [h];
    } else {
      var u := FirstRounds(key, h, n - 1);
      t := u + [Forward(key, n, h)];
      assert OneRound(key, n - 1, u[n - 1], t[n]);
      forall k | 0 <= k < n ensures OneRound(key, k, t[k], t[k + 1]) {
        if k < n - 1 { assert OneRound(key, k, u[k], u[k + 1]); }
      }
    }
  }

  /** The cipher: sixteen rounds under key words 0 to 15, then the halves swapped and the last two key
      words. */
  lemma SixteenRounds(key: seq<Word>, h: Halves) returns (t: seq<Halves>)
    requires |key| == TABLE
    ensures |t| == 17 && t[0] == h && forall k | 0 <= k < 16 :: OneRound(key, k, t[k], t[k + 1])
    ensures Encrypt(key, h) == Halves(Xor(t[16].x, key[16]), Xor(t[16].y, key[17]))
  {
    t := FirstRounds(key, h, 0x10);
  }

  // ---- the key schedule -----------------------------------------------------------------------------

  /** The first eighteen words take in the code's words in turn, bytes reversed; the others stay. */
  lemma {:induction false} MixedWord(key: seq<Word>, kc: seq<Word>, mod: nat, n: nat, i: nat)
    requires |key| == TABLE && |kc| == 3 && 0 < mod <= 3 && n <= 0x12 && i < TABLE
    ensures Mixed(key, kc, mod, n)[i] == if i < n then Xor(key[i], Swapped(kc[i % mod])) else key[i]
  {
    if n > 0 {
      MixedWord(key, kc, mod, n - 1, i);
    }
  }

  /** What a pair of words is refilled with is not touched again. */
  lemma {:induction false} RefilledStays(enc: Cipher, f: Filling, m: nat, n: nat, i: nat)
    requires |f.key| == TABLE && m <= n && 2 * n <= TABLE && i < 2 * m
    ensures Refilled(enc, f, n).key[i] == Refilled(enc, f, m).key[i]
    decreases n
  {
    if m < n {
      RefilledStays(enc, f, m, n - 1, i);
    }
  }

  /** Words 2 k and 2 k + 1 of a refilled table: the second and the first half of a block that starts
      at zero and is encrypted k + 1 times, each time under the table as refilled so far. */
  lemma RefilledPair(enc: Cipher, key: seq<Word>, k: nat)
    requires |key| == TABLE && 2 * k + 1 < TABLE
    ensures var f := Filling(key, Halves(Word(0), Word(0)));
      var before, after := Refilled(enc, f, k), Refilled(enc, f, k + 1);
      && (k == 0 ==> before == f) && after.temp == enc(before.key, before.temp)
      && Refilled(enc, f, TABLE / 2).key[2 * k] == after.temp.x
      && Refilled(enc, f, TABLE / 2).key[2 * k + 1] == after.temp.y
  {
    var f := Filling(key, Halves(Word(0), Word(0)));
    RefilledStays(enc, f, k + 1, TABLE / 2, 2 * k);
    RefilledStays(enc, f, k + 1, TABLE / 2, 2 * k + 1);
  }

  /** A keycode applied: its last two words encrypted as a block, then its first with the new second,
      both under the table as it was; the table mixed with the result and refilled. */
  lemma AppliedIs(enc: Cipher, key: seq<Word>, kc: seq<Word>, mod: nat)
    requires |key| == TABLE && |kc| == 3 && 0 < mod <= 3
    ensures var low := enc(key, Halves(kc[1], kc[2]));
      var high := enc(key, Halves(kc[0], low.y));
      var code := [high.y, high.x, low.x];
      Applied(enc, Keyed(key, kc), mod) ==
        Keyed(Refilled(enc, Filling(Mixed(key, code, mod, 18), Halves(Word(0), Word(0))), TABLE / 2).key, code)
  {
  }

  /** The table for a game code: the BIOS's; with the code, its half and its double applied; that twice;
      and a third time with the second word doubled and the third halved. */
  lemma KeyLevels(enc: Cipher, bios: seq<Word>, id: Word, mod: nat)
    requires |bios| == TABLE && 0 < mod <= 3
    ensures var one := Applied(enc, Keyed(bios, [id, Halved(id), Doubled(id)]), mod);
      var two := Applied(enc, one, mod);
      && KeyFor(enc, bios, id, 0, mod) == bios
      && KeyFor(enc, bios, id, 1, mod) == one.key
      && KeyFor(enc, bios, id, 2, mod) == two.key
      && KeyFor(enc, bios, id, 3, mod) ==
           Applied(enc, Keyed(two.key, [two.code[0], Doubled(two.code[1]), Halved(two.code[2])]), mod).key
  {
  }
}
