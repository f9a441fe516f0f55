/** KEY1, the cartridge's Blowfish-like block cipher, and its key schedule (src/core/cart/cart.cpp). */
module Key1 {

  datatype Word = Word(v: bv32)
  datatype Byte = Byte(v: bv8)

  const TABLE := 0x412     // words in a key table: 18 round keys and four S-boxes

  function Xor(a: Word, b: Word): Word { Word(a.v ^ b.v) }
  function Plus(a: Word, b: Word): Word { Word(a.v + b.v) }

  /** Byte k of a word, from the bottom, as an index. */
  function Octet(w: Word, k: nat): (n: nat)
    requires k < 4
    ensures n < 256
  {
    ((if k == 0 then w.v else if k == 1 then w.v >> 8 else if k == 2 then w.v >> 16 else w.v >> 24)
      as bv32 & 0xFF) as bv8 as nat
  }

  lemma XorCancels(a: Word, b: Word)
    ensures Xor(Xor(a, b), b) == a && Xor(b, Xor(b, a)) == a && Xor(b, Xor(a, b)) == a
  {
  }

  lemma XorMiddle(a: Word, b: Word, c: Word)
    ensures Xor(a, Xor(Xor(a, b), c)) == Xor(b, c)
  {
  }

  // ---- the rounds -------------------------------------------------------------------------

  /** The two halves of a block, as the rounds pass them on. */
  datatype Halves = Halves(y: Word, x: Word)

  /** The round function: four S-box lookups, added and mixed by turns. */
  function F(key: seq<Word>, z: Word): Word
    requires |key| == TABLE
  {
    Plus(Xor(Plus(key[0x12 + Octet(z, 3)], key[0x112 + Octet(z, 2)]), key[0x212 + Octet(z, 1)]),
         key[0x312 + Octet(z, 0)])
  }

  /** One round under round key k. */
  function Round(key: seq<Word>, k: nat, h: Halves): Halves
    requires |key| == TABLE && k < 0x12
  {
    var z := Xor(key[k], h.x);
    Halves(z, Xor(F(key, z), h.y))
  }

  /** The first n encryption rounds. */
  function Forward(key: seq<Word>, n: nat, h: Halves): Halves
    requires |key| == TABLE && n <= 0x10
  {
    if n == 0 then h else Round(key, n - 1, Forward(key, n - 1, h))
  }

  /** The first n decryption rounds, under the round keys from the last down. */
  function Backward(key: seq<Word>, n: nat, h: Halves): Halves
    requires |key| == TABLE && n <= 0x10
  {
    if n == 0 then h else Round(key, 0x12 - n, Backward(key, n - 1, h))
  }

  /** Sixteen rounds: one per round key but the last two. */
  function Rounds(key: seq<Word>): (n: nat)
    requires |key| == TABLE
    ensures n == 0x10
  {
    |key| - 0x400 - 2
  }

  function Encrypt(key: seq<Word>, h: Halves): Halves
    requires |key| == TABLE
  {
    var e := Forward(key, Rounds(key), h);
    Halves(Xor(e.x, key[0x10]), Xor(e.y, key[0x11]))
  }

  function Decrypt(key: seq<Word>, h: Halves): Halves
    requires |key| == TABLE
  {
    var d := Backward(key, Rounds(key), h);
    Halves(Xor(d.x, key[1]), Xor(d.y, key[0]))
  }

  /** What n decryption rounds leave of an encrypted block: the halves before the last n rounds,
      swapped, under the next round key. */
  ghost predicate Unwound(key: seq<Word>, n: nat, h: Halves)
    requires |key| == TABLE && 1 <= n <= 0x10
  {
    Backward(key, n, Encrypt(key, h)) ==
      Halves(Forward(key, 0x11 - n, h).y, Xor(Forward(key, 0x10 - n, h).y, key[0x11 - n]))
  }

  lemma FirstUnwound(key: seq<Word>, h: Halves)
    requires |key| == TABLE
    ensures Unwound(key, 1, h)
  {
    var e, c := Forward(key, 0x10, h), Encrypt(key, h);
    var p := Forward(key, 0xF, h);
    XorCancels(e.y, key[0x11]);
    assert Xor(key[0x11], c.x) == e.y;
    XorMiddle(F(key, e.y), p.y, key[0x10]);
    assert Backward(key, 1, c) == Round(key, 0x11, c);
  }

  /** One more round unwinds one more. */
  lemma UnwindOne(key: seq<Word>, n: nat, h: Halves)
    requires |key| == TABLE && 1 <= n < 0x10 && Unwound(key, n, h)
    ensures Unwound(key, n + 1, h)
  {
    var d := Backward(key, n, Encrypt(key, h));
    var g, p, q := Forward(key, 0x11 - n, h), Forward(key, 0x10 - n, h), Forward(key, 0xF - n, h);
    XorCancels(p.y, key[0x11 - n]);
    assert Xor(key[0x11 - n], d.x) == p.y;
    assert g.y == Xor(key[0x10 - n], p.x);
    assert p.x == Xor(F(key, p.y), q.y);
    XorKeyLast(F(key, p.y), q.y, key[0x10 - n]);
  }

  lemma XorKeyLast(f: Word, q: Word, k: Word)
    ensures Xor(f, Xor(k, Xor(f, q))) == Xor(q, k)
  {
  }

  lemma {:induction false} UnwoundAt(key: seq<Word>, n: nat, h: Halves)
    requires |key| == TABLE && 1 <= n <= 0x10
    ensures Unwound(key, n, h)
  {
    if n == 1 {
      FirstUnwound(key, h);
    } else {
      UnwoundAt(key, n - 1, h);
      UnwindOne(key, n - 1, h);
    }
  }

  /** `key1_decrypt` undoes `key1_encrypt` under every key table. */
  lemma DecryptEncrypt(key: seq<Word>, h: Halves)
    requires |key| == TABLE
    ensures Decrypt(key, Encrypt(key, h)) == h
  {
    UnwoundAt(key, 0x10, h);
    var g := Forward(key, 1, h);
    assert g == Round(key, 0, Forward(key, 0, h));
    XorCancels(h.y, key[1]);
    XorCancels(h.x, key[0]);
  }
}
