/** The secure area as bytes and blocks, and KEY1's key schedule (src/core/cart/cart.cpp). */
module SecureArea {
  import opened Key1

  const AREA := 0x800
  const OBJ: seq<Byte> :=
    [Byte(0x65), Byte(0x6E), Byte(0x63), Byte(0x72), Byte(0x79), Byte(0x4F), Byte(0x62), Byte(0x6A)]
  const MARKER: seq<Byte> := [Byte(0xFF), Byte(0xDE), Byte(0xFF), Byte(0xE7)]

  // ---- bytes and words, low byte first ---------------------------------------------------

  function Joined(a: Byte, b: Byte, c: Byte, d: Byte): Word
  {
    Word((a.v as bv32) | ((b.v as bv32) << 8) | ((c.v as bv32) << 16) | ((d.v as bv32) << 24))
  }

  function Part(w: Word, k: nat): Byte
    requires k < 4
  {
    Byte(((if k == 0 then w.v else if k == 1 then w.v >> 8 else if k == 2 then w.v >> 16 else w.v >> 24) & 0xFF) as bv8)
  }

  lemma PartsJoin(w: Word)
    ensures Joined(Part(w, 0), Part(w, 1), Part(w, 2), Part(w, 3)) == w
  {
  }

  lemma JoinedParts(a: Byte, b: Byte, c: Byte, d: Byte)
    ensures var w := Joined(a, b, c, d); Part(w, 0) == a && Part(w, 1) == b && Part(w, 2) == c && Part(w, 3) == d
  {
  }

  function WordOf(s: seq<Byte>): Word
    requires |s| == 4
  {
    Joined(s[0], s[1], s[2], s[3])
  }

  function BytesOf(w: Word): (s: seq<Byte>)
    ensures |s| == 4
  {
    [Part(w, 0), Part(w, 1), Part(w, 2), Part(w, 3)]
  }

  lemma WordTrip(w: Word)
    ensures WordOf(BytesOf(w)) == w
  {
    PartsJoin(w);
  }

  lemma BytesTrip(s: seq<Byte>)
    requires |s| == 4
    ensures BytesOf(WordOf(s)) == s
  {
    JoinedParts(s[0], s[1], s[2], s[3]);
  }

  /** The block of eight bytes at an offset. */
  function BlockAt(s: seq<Byte>, at: nat): Halves
    requires at + 8 <= |s|
  {
    Halves(WordOf(s[at..at + 4]), WordOf(s[at + 4..at + 8]))
  }

  function BlockBytes(h: Halves): (s: seq<Byte>)
    ensures |s| == 8
  {
    BytesOf(h.y) + BytesOf(h.x)
  }

  lemma BlockTrip(s: seq<Byte>, at: nat)
    requires at + 8 <= |s|
    ensures BlockBytes(BlockAt(s, at)) == s[at..at + 8]
  {
    BytesTrip(s[at..at + 4]);
    BytesTrip(s[at + 4..at + 8]);
    assert s[at..at + 4] + s[at + 4..at + 8] == s[at..at + 8];
  }

  /** A block stored. */
  function Put(s: seq<Byte>, at: nat, h: Halves): (r: seq<Byte>)
    requires at + 8 <= |s|
    ensures |r| == |s|
  {
    s[..at] + BlockBytes(h) + s[at + 8..]
  }

  lemma PutHere(s: seq<Byte>, at: nat, h: Halves)
    requires at + 8 <= |s|
    ensures BlockAt(Put(s, at, h), at) == h
  {
    var r := Put(s, at, h);
    assert r[at..at + 4] == BytesOf(h.y) && r[at + 4..at + 8] == BytesOf(h.x);
    WordTrip(h.y);
    WordTrip(h.x);
  }

  lemma PutElsewhere(s: seq<Byte>, at: nat, h: Halves, other: nat)
    requires at + 8 <= |s| && other + 8 <= |s| && (other + 8 <= at || at + 8 <= other)
    ensures BlockAt(Put(s, at, h), other) == BlockAt(s, other)
  {
    var r := Put(s, at, h);
    assert r[other..other + 4] == s[other..other + 4] && r[other + 4..other + 8] == s[other + 4..other + 8];
  }

  /** Byte strings with equal blocks are equal. */
  lemma SameBlocks(s: seq<Byte>, r: seq<Byte>, n: nat)
    requires |s| == |r| == 8 * n && forall i | 0 <= i < n :: BlockAt(s, 8 * i) == BlockAt(r, 8 * i)
    ensures s == r
  {
    forall k | 0 <= k < |s|
      ensures s[k] == r[k]
    {
      var i := k / 8;
      BlockTrip(s, 8 * i);
      BlockTrip(r, 8 * i);
      assert BlockAt(s, 8 * i) == BlockAt(r, 8 * i);
      assert s[8 * i..8 * i + 8][k - 8 * i] == s[k] && r[8 * i..8 * i + 8][k - 8 * i] == r[k];
    }
  }

  // ---- the key schedule -----------------------------------------------------------------------

  function Swapped(w: Word): Word { Joined(Part(w, 3), Part(w, 2), Part(w, 1), Part(w, 0)) }
  function Doubled(w: Word): Word { Word(w.v << 1) }
  function Halved(w: Word): Word { Word(w.v >> 1) }

  /** The first n round keys mixed with the keycode. */
  function Mixed(key: seq<Word>, kc: seq<Word>, mod: nat, n: nat): (r: seq<Word>)
    requires |key| == TABLE && |kc| == 3 && 0 < mod <= 3 && n <= 0x12
    ensures |r| == TABLE
  {
    if n == 0 then key else var m := Mixed(key, kc, mod, n - 1); m[n - 1 := Xor(m[n - 1], Swapped(kc[(n - 1) % mod]))]
  }

  const BLANK := Halves(Word(0), Word(0))

  /** A key table being refilled from the encryptions of a running block. */
  datatype Filling = Filling(key: seq<Word>, temp: Halves)

  /** The cipher under any key, as a value. */
  type Cipher = (seq<Word>, Halves) -> Halves

  function Encryption(): Cipher { (key, h) => if |key| == TABLE then Encrypt(key, h) else h }

  ghost predicate Encrypts(enc: Cipher)
  {
    forall key, h {:trigger Encrypt(key, h)} | |key| == TABLE :: enc(key, h) == Encrypt(key, h)
  }

  /** The n-th pair of words filled with the next encryption. */
  function FilledPair(enc: Cipher, g: Filling, n: nat): (r: Filling)
    requires |g.key| == TABLE && 2 * n + 1 < TABLE
    ensures |r.key| == TABLE
  {
    var t := enc(g.key, g.temp);
    Filling(g.key[2 * n := t.x][2 * n + 1 := t.y], t)
  }

  /** The table with its first n pairs of words refilled. */
  function Refilled(enc: Cipher, f: Filling, n: nat): (r: Filling)
    requires |f.key| == TABLE && 2 * n <= TABLE
    ensures |r.key| == TABLE
  {
    if n == 0 then f else FilledPair(enc, Refilled(enc, f, n - 1), n - 1)
  }

  /** The keycode after its two halves are encrypted, the upper pair first. */
  function Coded(enc: Cipher, key: seq<Word>, kc: seq<Word>): (r: seq<Word>)
    requires |key| == TABLE && |kc| == 3
    ensures |r| == 3
  {
    var u := enc(key, Halves(kc[1], kc[2]));
    var v := enc(key, Halves(kc[0], u.y));
    [v.y, v.x, u.x]
  }

  datatype Keyed = Keyed(key: seq<Word>, code: seq<Word>)

  /** `key1_apply_keycode`. */
  function Applied(enc: Cipher, k: Keyed, mod: nat): (r: Keyed)
    requires |k.key| == TABLE && |k.code| == 3 && 0 < mod <= 3
    ensures |r.key| == TABLE && |r.code| == 3
  {
    var code := Coded(enc, k.key, k.code);
    Keyed(Refilled(enc, Filling(Mixed(k.key, code, mod, Rounds(k.key) + 2), BLANK), |k.key| / 2).key, code)
  }

  /** `key1_init`: the table for a game code at a level. */
  function KeyFor(enc: Cipher, bios: seq<Word>, id: Word, level: nat, mod: nat): (key: seq<Word>)
    requires |bios| == TABLE && 0 < mod <= 3
    ensures |key| == TABLE
  {
    var k0 := Keyed(bios, [id, Halved(id), Doubled(id)]);
    var k1 := if level >= 1 then Applied(enc, k0, mod) else k0;
    var k2 := if level >= 2 then Applied(enc, k1, mod) else k1;
    var k3 := k2.(code := [k2.code[0], Doubled(k2.code[1]), Halved(k2.code[2])]);
    (if level >= 3 then Applied(enc, k3, mod) else k3).key
  }

  // ---- sealing and opening the area ---------------------------------------------------------

  /** sealed is the area with its blocks under the level-3 key, the first one under level 2 too. */
  ghost predicate Sealed(area: seq<Byte>, key3: seq<Word>, key2: seq<Word>, sealed: seq<Byte>)
    requires |key3| == |key2| == TABLE
  {
    && |area| == |sealed| == AREA
    && forall i | 0 <= i < AREA / 8 ::
         BlockAt(sealed, 8 * i)
           == if i == 0 then Encrypt(key2, Encrypt(key3, BlockAt(area, 0))) else Encrypt(key3, BlockAt(area, 8 * i))
  }

  /** plain is what undoing that leaves. */
  ghost predicate Opened(sealed: seq<Byte>, key3: seq<Word>, key2: seq<Word>, plain: seq<Byte>)
    requires |key3| == |key2| == TABLE
  {
    && |sealed| == |plain| == AREA
    && forall i | 0 <= i < AREA / 8 ::
         BlockAt(plain, 8 * i)
           == if i == 0 then Decrypt(key3, Decrypt(key2, BlockAt(sealed, 0))) else Decrypt(key3, BlockAt(sealed, 8 * i))
  }

  /** Opening a sealed area gives it back. */
  lemma OpenedIsArea(area: seq<Byte>, key3: seq<Word>, key2: seq<Word>, sealed: seq<Byte>, plain: seq<Byte>)
    requires |key3| == |key2| == TABLE
    requires Sealed(area, key3, key2, sealed) && Opened(sealed, key3, key2, plain)
    ensures plain == area
  {
    forall i | 0 <= i < AREA / 8
      ensures BlockAt(plain, 8 * i) == BlockAt(area, 8 * i)
    {
      DecryptEncrypt(key3, BlockAt(area, 8 * i));
      if i == 0 {
        DecryptEncrypt(key2, Encrypt(key3, BlockAt(area, 0)));
      }
    }
    SameBlocks(plain, area, AREA / 8);
  }
}
