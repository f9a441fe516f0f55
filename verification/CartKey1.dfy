/** The cartridge's KEY1 use (src/core/cart/cart.cpp): the constructor's re-encryption of a
    decrypted secure area through the image's overlay, and its way back. */
module CartKey1 {
  import opened Key1
  import opened SecureArea
  import RomSource

  /** A block put at its place: that block is new, the others are as they were. */
  lemma OneBlock(was: seq<Byte>, now: seq<Byte>, n: nat, h: Halves)
    requires |was| == AREA && n < AREA / 8 && now == Put(was, 8 * n, h)
    ensures forall i | 0 <= i < AREA / 8 :: BlockAt(now, 8 * i) == if i == n then h else BlockAt(was, 8 * i)
  {
    forall i | 0 <= i < AREA / 8
      ensures BlockAt(now, 8 * i) == if i == n then h else BlockAt(was, 8 * i)
    {
      if i == n {
        PutHere(was, 8 * n, h);
      } else {
        PutElsewhere(was, 8 * n, h, 8 * i);
      }
    }
  }

  lemma SealedSo(start: seq<Byte>, all: seq<Byte>, sealed: seq<Byte>, key3: seq<Word>, key2: seq<Word>)
    requires |start| == |all| == AREA && |key3| == |key2| == TABLE
    requires forall i | 0 <= i < AREA / 8 :: BlockAt(all, 8 * i) == Encrypt(key3, BlockAt(start, 8 * i))
    requires sealed == Put(all, 0, Encrypt(key2, BlockAt(all, 0)))
    ensures Sealed(start, key3, key2, sealed)
  {
    OneBlock(all, sealed, 0, Encrypt(key2, BlockAt(all, 0)));
    assert BlockAt(all, 8 * 0) == Encrypt(key3, BlockAt(start, 8 * 0));
  }

  lemma UndoneSo(sealed: seq<Byte>, mid: seq<Byte>, out: seq<Byte>, key3: seq<Word>, key2: seq<Word>)
    requires |sealed| == |out| == AREA && |key3| == |key2| == TABLE
    requires mid == Put(sealed, 0, Decrypt(key2, BlockAt(sealed, 0)))
    requires forall i | 0 <= i < AREA / 8 :: BlockAt(out, 8 * i) == Decrypt(key3, BlockAt(mid, 8 * i))
    ensures Opened(sealed, key3, key2, out)
  {
    OneBlock(sealed, mid, 0, Decrypt(key2, BlockAt(sealed, 0)));
    assert BlockAt(out, 8 * 0) == Decrypt(key3, BlockAt(mid, 8 * 0));
  }

  class Cart {
    const rom: RomSource.Image<Byte>
    const bios: seq<Word>       // the ARM7 BIOS's key table
    const id: Word              // the header's game code
    const a9: nat               // the header's ARM9 offset
    ghost const enc: Cipher     // the cipher the key schedule runs, as a value
    var key1: seq<Word>

    ghost predicate Valid()
      reads this, rom
    {
      rom.Valid() && |bios| == TABLE && |key1| == TABLE && Encrypts(enc)
    }

    constructor (rom: RomSource.Image<Byte>, bios: seq<Word>, id: Word, a9: nat)
      requires rom.Valid() && |bios| == TABLE
      ensures Valid() && this.rom == rom && this.bios == bios && this.id == id && this.a9 == a9
    {
      this.rom, this.bios, this.id, this.a9, key1 := rom, bios, id, a9, bios;
      enc := Encryption();
    }

    /** `key1_encrypt` of a pair of words. */
    method EncryptHalves(h: Halves) returns (r: Halves)
      requires |key1| == TABLE
      ensures r == Encrypt(key1, h)
    {
      var y, x := h.y, h.x;
      var i := 0;
      while i <= 0xF
        invariant i <= 0x10 && Halves(y, x) == Forward(key1, i, h)
      {
        var z := Xor(key1[i], x);
        x := MixIn(z);
        x := Xor(x, y);
        y := z;
        i := i + 1;
      }
      r := Halves(Xor(x, key1[0x10]), Xor(y, key1[0x11]));
    }

    /** The four S-box lookups. */
    method MixIn(z: Word) returns (x: Word)
      requires |key1| == TABLE
      ensures x == F(key1, z)
    {
      x := key1[0x12 + Octet(z, 3)];
      x := Plus(x, key1[0x112 + Octet(z, 2)]);
      x := Xor(x, key1[0x212 + Octet(z, 1)]);
      x := Plus(x, key1[0x312 + Octet(z, 0)]);
    }

    /** `key1_decrypt` of a pair of words. */
    method DecryptHalves(h: Halves) returns (r: Halves)
      requires |key1| == TABLE
      ensures r == Decrypt(key1, h)
    {
      var y, x := h.y, h.x;
      var i := 0x11;
      while i >= 0x2
        invariant 1 <= i <= 0x11 && Halves(y, x) == Backward(key1, 0x11 - i, h)
      {
        var z := Xor(key1[i], x);
        x := MixIn(z);
        x := Xor(x, y);
        y := z;
        i := i - 1;
      }
      r := Halves(Xor(x, key1[1]), Xor(y, key1[0]));
    }

    /** `key1_apply_keycode`. */
    method ApplyKeycode(kc: seq<Word>, mod: nat) returns (code: seq<Word>)
      requires |key1| == TABLE && |kc| == 3 && 0 < mod <= 3 && Encrypts(enc)
      modifies this`key1
      ensures |code| == 3 && Keyed(key1, code) == Applied(enc, Keyed(old(key1), kc), mod)
    {
      code := EncodeKeycode(kc);
      Mix(code, mod);
      Refill(Filling(key1, BLANK));
    }

    /** The keycode's two overlapping halves encrypted, the upper one first. */
    method EncodeKeycode(kc: seq<Word>) returns (code: seq<Word>)
      requires |key1| == TABLE && |kc| == 3 && Encrypts(enc)
      ensures code == Coded(enc, key1, kc)
    {
      var u := EncryptHalves(Halves(kc[1], kc[2]));
      var v := EncryptHalves(Halves(kc[0], u.y));
      code := [v.y, v.x, u.x];
    }

    method Mix(code: seq<Word>, mod: nat)
      requires |key1| == TABLE && |code| == 3 && 0 < mod <= 3
      modifies this`key1
      ensures key1 == Mixed(old(key1), code, mod, Rounds(old(key1)) + 2)
    {
      var i := 0;
      while i <= 0x11
        invariant i <= 0x12 && key1 == Mixed(old(key1), code, mod, i)
      {
        key1 := key1[i := Xor(key1[i], Swapped(code[i % mod]))];
        i := i + 1;
      }
    }

    /** The table refilled, two words at a time, from a block encrypted over and over. */
    method Refill(ghost start: Filling)
      requires |key1| == TABLE && start == Filling(key1, BLANK) && Encrypts(enc)
      modifies this`key1
      ensures |key1| == TABLE && key1 == Refilled(enc, start, |start.key| / 2).key
    {
      var temp := BLANK;
      var i := 0;
      ghost var n: nat := 0;
      while i <= 0x410
        invariant i == 2 * n <= TABLE && |key1| == TABLE && Filling(key1, temp) == Refilled(enc, start, n)
      {
        temp := FillTwo(i, temp, n);
        i, n := i + 2, n + 1;
      }
      assert n == |start.key| / 2;
    }

    method FillTwo(i: nat, temp: Halves, ghost n: nat) returns (t: Halves)
      requires |key1| == TABLE && i == 2 * n && i + 1 < TABLE && Encrypts(enc)
      modifies this`key1
      ensures Filling(key1, t) == FilledPair(enc, Filling(old(key1), temp), n)
    {
      t := EncryptHalves(temp);
      key1 := key1[i := t.x][i + 1 := t.y];
    }

    /** `key1_init`. */
    method InitKey(level: nat, mod: nat)
      requires Encrypts(enc) && |bios| == TABLE && 0 < mod <= 3
      modifies this`key1
      ensures |key1| == TABLE && key1 == KeyFor(enc, bios, id, level, mod)
    {
      key1 := bios;
      var code := [id, Halved(id), Doubled(id)];
      if level >= 1 {
        code := ApplyKeycode(code, mod);
      }
      if level >= 2 {
        code := ApplyKeycode(code, mod);
      }
      code := [code[0], Doubled(code[1]), Halved(code[2])];
      if level >= 3 {
        code := ApplyKeycode(code, mod);
      }
    }

    /** `key1_encrypt` of the block at an offset, in place. */
    method EncryptAt(sec: array<Byte>, at: nat)
      requires |key1| == TABLE && at + 8 <= sec.Length
      modifies sec
      ensures sec[..] == Put(old(sec[..]), at, Encrypt(key1, BlockAt(old(sec[..]), at)))
    {
      var h := EncryptHalves(BlockAt(sec[..], at));
      Store(sec, at, h);
    }

    /** `key1_decrypt` of the block at an offset, in place. */
    method DecryptAt(sec: array<Byte>, at: nat)
      requires |key1| == TABLE && at + 8 <= sec.Length
      modifies sec
      ensures sec[..] == Put(old(sec[..]), at, Decrypt(key1, BlockAt(old(sec[..]), at)))
    {
      var h := DecryptHalves(BlockAt(sec[..], at));
      Store(sec, at, h);
    }

    static method Store(sec: array<Byte>, at: nat, h: Halves)
      requires at + 8 <= sec.Length
      modifies sec
      ensures sec[..] == Put(old(sec[..]), at, h)
    {
      ghost var was := sec[..];
      var b := BlockBytes(h);
      forall k | 0 <= k < 8 {
        sec[at + k] := b[k];
      }
      assert sec[..] == Put(was, at, h);
    }

    /** Every block of the area encrypted under the key in force. */
    method EncryptAll(sec: array<Byte>)
      requires |key1| == TABLE && sec.Length == AREA
      modifies sec
      ensures forall i | 0 <= i < AREA / 8 :: BlockAt(sec[..], 8 * i) == Encrypt(key1, BlockAt(old(sec[..]), 8 * i))
    {
      ghost var was := sec[..];
      var n := 0;
      while n < AREA / 8
        invariant n <= AREA / 8
        invariant forall i | 0 <= i < AREA / 8 ::
          BlockAt(sec[..], 8 * i) == if i < n then Encrypt(key1, BlockAt(was, 8 * i)) else BlockAt(was, 8 * i)
      {
        ghost var now := sec[..];
        EncryptAt(sec, 8 * n);
        OneBlock(now, sec[..], n, Encrypt(key1, BlockAt(was, 8 * n)));
        n := n + 1;
      }
    }

    method DecryptAll(sec: array<Byte>)
      requires |key1| == TABLE && sec.Length == AREA
      modifies sec
      ensures forall i | 0 <= i < AREA / 8 :: BlockAt(sec[..], 8 * i) == Decrypt(key1, BlockAt(old(sec[..]), 8 * i))
    {
      ghost var was := sec[..];
      var n := 0;
      while n < AREA / 8
        invariant n <= AREA / 8
        invariant forall i | 0 <= i < AREA / 8 ::
          BlockAt(sec[..], 8 * i) == if i < n then Decrypt(key1, BlockAt(was, 8 * i)) else BlockAt(was, 8 * i)
      {
        ghost var now := sec[..];
        DecryptAt(sec, 8 * n);
        OneBlock(now, sec[..], n, Decrypt(key1, BlockAt(was, 8 * n)));
        n := n + 1;
      }
    }

    /** The image's secure area, when it is a decrypted one lying in the usual range. */
    ghost predicate Decrypted(area: seq<Byte>)
      requires |area| == AREA
    {
      0x4000 <= a9 < 0x8000 && area[..4] == MARKER && area[0x10..0x14] != MARKER
    }

    /** Every block under the level-3 key, the first one under level 2 as well, in place. */
    method SealBlocks(sec: array<Byte>)
      requires Encrypts(enc) && |bios| == TABLE && sec.Length == AREA
      modifies this`key1, sec
      ensures |key1| == TABLE && Sealed(old(sec[..]), KeyFor(enc, bios, id, 3, 2), KeyFor(enc, bios, id, 2, 2), sec[..])
    {
      ghost var start := sec[..];
      InitKey(3, 2);
      ghost var key3 := key1;
      EncryptAll(sec);
      ghost var all := sec[..];
      InitKey(2, 2);
      EncryptAt(sec, 0);
      SealedSo(start, all, sec[..], key3, key1);
    }

    /** The area as the overlay holds it: the object marker at its start, then sealed. */
    method Reencrypt(area: seq<Byte>) returns (sealed: seq<Byte>)
      requires Encrypts(enc) && |bios| == TABLE && |area| == AREA
      modifies this`key1
      ensures |key1| == TABLE
      ensures Sealed(OBJ + area[8..], KeyFor(enc, bios, id, 3, 2), KeyFor(enc, bios, id, 2, 2), sealed)
    {
      var sec := new Byte[AREA](k requires 0 <= k < AREA => if k < 8 then OBJ[k] else area[k]);
      assert sec[..] == OBJ + area[8..];
      SealBlocks(sec);
      sealed := sec[..];
    }

    /** Level 2 off the first block, then level 3 off all of them, in place. */
    method OpenBlocks(sec: array<Byte>)
      requires Encrypts(enc) && |bios| == TABLE && sec.Length == AREA
      modifies this`key1, sec
      ensures |key1| == TABLE && Opened(old(sec[..]), KeyFor(enc, bios, id, 3, 2), KeyFor(enc, bios, id, 2, 2), sec[..])
    {
      ghost var sealed := sec[..];
      InitKey(2, 2);
      ghost var key2 := key1;
      DecryptAt(sec, 0);
      ghost var mid := sec[..];
      InitKey(3, 2);
      DecryptAll(sec);
      UndoneSo(sealed, mid, sec[..], key1, key2);
    }

    /** The secure area as a read finds it. */
    ghost function Area(): (s: seq<Byte>)
      requires rom.Valid()
      reads rom
      ensures |s| == AREA && forall k | 0 <= k < AREA :: s[k] == rom.View(a9 + k)
    {
      seq(AREA, k requires 0 <= k < AREA && rom.Valid() reads rom => rom.View(a9 + k))
    }

    /** The rewrite of the constructor: a decrypted secure area, lying within one page, is replaced
        in the overlay by its sealed form. What the file itself holds does not change. */
    method SealDump() returns (rewritten: bool)
      requires Valid() && (0x4000 <= a9 < 0x8000 ==> a9 % RomSource.PAGE + AREA <= RomSource.PAGE)
      modifies this`key1, rom`overlay
      ensures Valid() && rewritten == Decrypted(old(Area()))
      ensures rewritten ==>
        Sealed(OBJ + old(Area())[8..], KeyFor(enc, bios, id, 3, 2), KeyFor(enc, bios, id, 2, 2), Area())
      ensures !rewritten ==> Area() == old(Area())
    {
      ghost var before := Area();
      rewritten := false;
      if !(0x4000 <= a9 < 0x8000) {
        return;
      }
      var w0 := rom.Read(a9, 4);
      var w4 := rom.Read(a9 + 0x10, 4);
      assert w0 == before[..4] && w4 == before[0x10..0x14];
      if w0 == MARKER && w4 != MARKER {
        rewritten := true;
        Rewrite();
      }
    }

    method Rewrite()
      requires Valid() && a9 % RomSource.PAGE + AREA <= RomSource.PAGE
      modifies this`key1, rom`overlay
      ensures Valid()
      ensures Sealed(OBJ + old(Area())[8..], KeyFor(enc, bios, id, 3, 2), KeyFor(enc, bios, id, 2, 2), Area())
    {
      var i, area := PatchedArea();
      var sealed := Reencrypt(area);
      StoreArea(i, sealed);
    }

    /** The overlay's copy of the area, still as the image has it. */
    method PatchedArea() returns (i: nat, area: seq<Byte>)
      requires Valid()
      modifies rom`overlay
      ensures Valid() && area == Area() == old(Area())
      ensures i < |rom.overlay| && i == RomSource.Find(rom.overlay, RomSource.Base(a9, rom.span), 0)
    {
      i := rom.PatchPage(a9);
      area := rom.Read(a9, AREA);
    }

    method StoreArea(i: nat, sealed: seq<Byte>)
      requires Valid() && a9 % RomSource.PAGE + AREA <= RomSource.PAGE && |sealed| == AREA
      requires i < |rom.overlay| && i == RomSource.Find(rom.overlay, RomSource.Base(a9, rom.span), 0)
      modifies rom`overlay
      ensures Valid() && Area() == sealed
    {
      rom.Poke(a9, i, sealed);
    }

    /** `decrypt_secure_area`: the area undone, with the markers back if it shows the object
        marker, or nothing but markers. */
    method DecryptSecureArea() returns (out: seq<Byte>, ghost plain: seq<Byte>)
      requires Valid()
      modifies this`key1
      ensures Valid() && |out| == AREA
      ensures Opened(Area(), KeyFor(enc, bios, id, 3, 2), KeyFor(enc, bios, id, 2, 2), plain)
      ensures plain[..8] == OBJ ==> out == MARKER + MARKER + plain[8..]
      ensures plain[..8] != OBJ ==> forall k | 0 <= k < AREA :: out[k] == MARKER[k % 4]
    {
      var area := rom.Read(a9, AREA);
      assert area == Area();
      var sec := new Byte[AREA](k requires 0 <= k < AREA => area[k]);
      assert sec[..] == area;
      OpenBlocks(sec);
      plain := sec[..];
      if sec[..8] == OBJ {
        assert sec[..8] == plain[..8];
        out := MARKER + MARKER + sec[8..];
      } else {
        out := seq(AREA, k requires 0 <= k => MARKER[k % 4]);
      }
    }
  }

  /** A dump with a decrypted secure area gets it back, its first two words as markers, by way of
      the re-encrypted overlay. */
  method SecureAreaTrip(cart: Cart) returns (out: seq<Byte>)
    requires cart.Valid() && cart.a9 % RomSource.PAGE + AREA <= RomSource.PAGE && cart.Decrypted(cart.Area())
    modifies cart`key1, cart.rom`overlay
    ensures out == MARKER + MARKER + old(cart.Area())[8..]
  {
    ghost var area := cart.Area();
    var rewritten := cart.SealDump();
    ghost var key3, key2 := KeyFor(cart.enc, cart.bios, cart.id, 3, 2), KeyFor(cart.enc, cart.bios, cart.id, 2, 2);
    ghost var sealed := cart.Area();
    ghost var plain;
    out, plain := cart.DecryptSecureArea();
    OpenedIsArea(OBJ + area[8..], key3, key2, sealed, plain);
    assert plain[..8] == OBJ && plain[8..] == area[8..];
  }
}
