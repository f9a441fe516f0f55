/** Counter mode (src/core/crypto/aes.c): the keystream, the counter, and the buffer they act on. */
module AesCtr {

  const BLOCK := 16

  datatype Octet = Octet(v: bv8)

  function Xor(a: Octet, b: Octet): Octet { Octet(a.v ^ b.v) }

  lemma XorTwice(a: Octet, k: Octet)
    ensures Xor(Xor(a, k), k) == a
  {
  }

  /** The counter's bytes, most significant first. */
  type Counter = c: seq<nat> | |c| == BLOCK && forall k | 0 <= k < BLOCK :: c[k] < 256 witness seq(BLOCK, _ => 0)

  /** The block cipher under a context's round keys, from a counter to sixteen bytes. */
  type Cipher = Counter -> seq<Octet>

  ghost predicate IsBlockCipher(e: Cipher) { forall c :: |e(c)| == BLOCK }

  /** Bytes 0 .. k - 1 of the counter, incremented with a carry coming in at byte k - 1. */
  function Carried(c: Counter, k: nat): (r: Counter)
    requires k <= BLOCK
    decreases k
  {
    if k == 0 then c
    else if c[k - 1] == 255 then Carried(c[k - 1 := 0], k - 1)
    else c[k - 1 := c[k - 1] + 1]
  }

  function Next(c: Counter): Counter { Carried(c, BLOCK) }

  function After(c: Counter, n: nat): Counter { if n == 0 then c else Next(After(c, n - 1)) }

  // ---- the counter counts ------------------------------------------------------------------------

  function Weight(k: nat): (w: nat)
    ensures w > 0
  {
    if k == 0 then 1 else 256 * Weight(k - 1)
  }

  /** The number the first k bytes stand for. */
  function Value(c: Counter, k: nat): nat
    requires k <= BLOCK
  {
    if k == 0 then 0 else 256 * Value(c, k - 1) + c[k - 1]
  }

  lemma {:induction false} SamePrefix(c: Counter, d: Counter, k: nat)
    requires k <= BLOCK && forall j | 0 <= j < k :: c[j] == d[j]
    ensures Value(c, k) == Value(d, k)
  {
    if k > 0 {
      SamePrefix(c, d, k - 1);
    }
  }

  lemma {:induction false} CarriedKeepsRest(c: Counter, k: nat)
    requires k <= BLOCK
    ensures forall j | k <= j < BLOCK :: Carried(c, k)[j] == c[j]
    decreases k
  {
    if k > 0 && c[k - 1] == 255 {
      CarriedKeepsRest(c[k - 1 := 0], k - 1);
    }
  }

  /** Incrementing adds one, modulo 256 to the number of bytes. */
  lemma {:induction false} CarriedCounts(c: Counter, k: nat)
    requires k <= BLOCK
    ensures Value(Carried(c, k), k) == if Value(c, k) + 1 == Weight(k) then 0 else Value(c, k) + 1
    ensures Value(c, k) < Weight(k)
    decreases k
  {
    if k > 0 {
      var d: Counter := c[k - 1 := 0];
      CarriedCounts(c, k - 1);
      if c[k - 1] == 255 {
        CarriedCounts(d, k - 1);
        CarriedKeepsRest(d, k - 1);
        SamePrefix(c, d, k - 1);
      } else {
        var e: Counter := c[k - 1 := c[k - 1] + 1];
        SamePrefix(c, e, k - 1);
      }
    }
  }

  // ---- the keystream ----------------------------------------------------------------------------

  /** Byte k of the keystream's block b from counter iv on. */
  function StreamByte(e: Cipher, iv: Counter, b: nat, k: nat): Octet
    requires |e(After(iv, b))| == BLOCK && k < BLOCK
  {
    e(After(iv, b))[k]
  }

  ghost predicate Streamed(e: Cipher, iv: Counter, was: seq<Octet>, now: seq<Octet>)
    requires IsBlockCipher(e)
  {
    |was| == |now| && forall b: nat, k: nat | k < BLOCK && BLOCK * b + k < |was| ::
      now[BLOCK * b + k] == Xor(was[BLOCK * b + k], StreamByte(e, iv, b, k))
  }

  /** Streaming twice from one counter gives the buffer back. */
  lemma StreamTwice(e: Cipher, iv: Counter, s: seq<Octet>, t: seq<Octet>, u: seq<Octet>)
    requires IsBlockCipher(e) && Streamed(e, iv, s, t) && Streamed(e, iv, t, u)
    ensures u == s
  {
    forall i | 0 <= i < |s|
      ensures u[i] == s[i]
    {
      var b, k := i / BLOCK, i % BLOCK;
      XorTwice(s[BLOCK * b + k], StreamByte(e, iv, b, k));
    }
  }

  class Context {
    const cipher: Cipher
    var iv: Counter

    constructor (cipher: Cipher, iv: Counter)
      ensures this.cipher == cipher && this.iv == iv
    {
      this.cipher, this.iv := cipher, iv;
    }

    /** `AES_CTR_next_keystream`: the block under the counter, and the counter moved on. */
    method NextKeystream() returns (ks: seq<Octet>)
      modifies this`iv
      ensures ks == cipher(old(iv)) && iv == Next(old(iv))
    {
      ks := cipher(iv);
      var bi := BLOCK - 1;
      while bi >= 0
        invariant -1 <= bi < BLOCK && Carried(iv, bi + 1) == Next(old(iv))
      {
        var bumped := (iv[bi] + 1) % 256;
        if bumped != 0 {
          iv := iv[bi := bumped];
          return;
        }
        iv := iv[bi := 0];
        bi := bi - 1;
      }
    }

    /** The counter's increment inside `AES_CTR_xcrypt_buffer`. */
    method Increment()
      modifies this`iv
      ensures iv == Next(old(iv))
    {
      var bi := BLOCK - 1;
      while bi >= 0
        invariant -1 <= bi < BLOCK && Carried(iv, bi + 1) == Next(old(iv))
      {
        if iv[bi] == 255 {
          iv := iv[bi := 0];
          bi := bi - 1;
          continue;
        }
        iv := iv[bi := iv[bi] + 1];
        break;
      }
    }

    /** `AES_CTR_xcrypt_buffer`: each byte with the keystream's, a block's worth at a time, in
        place; the counter moved past every block begun. */
    method XcryptBuffer(buf: array<Octet>)
      requires IsBlockCipher(cipher)
      modifies this`iv, buf
      ensures Streamed(cipher, old(iv), old(buf[..]), buf[..])
      ensures iv == After(old(iv), Begun(buf.Length))
    {
      ghost var iv0, was := iv, buf[..];
      var block: seq<Octet> := [];
      var i, bi := 0, BLOCK;
      ghost var n: nat := 0;
      while i < buf.Length
        invariant i <= buf.Length && 0 <= bi <= BLOCK && iv == After(iv0, n) && n == Begun(i)
        invariant n == 0 ==> i == 0 && bi == BLOCK
        invariant n > 0 ==> i == BLOCK * (n - 1) + bi && bi > 0 && block == cipher(After(iv0, n - 1))
        invariant forall j | i <= j < buf.Length :: buf[j] == was[j]
        invariant Streamed(cipher, iv0, was[..i], buf[..i])
      {
        if bi == BLOCK {
          block := cipher(iv);
          Increment();
          n := n + 1;
          bi := 0;
        }
        assert i == BLOCK * (n - 1) + bi;
        ghost var done := buf[..i];
        buf[i] := Xor(buf[i], block[bi]);
        OneMore(cipher, iv0, was, i, n - 1, bi, done, buf[..i + 1]);
        BegunNext(i, n, bi);
        i, bi := i + 1, bi + 1;
      }
      assert was[..i] == was && buf[..i] == buf[..];
    }
  }

  /** Blocks begun by i bytes. */
  function Begun(i: nat): nat { (i + BLOCK - 1) / BLOCK }

  lemma BegunNext(i: nat, n: nat, bi: nat)
    requires n > 0 && bi < BLOCK && i == BLOCK * (n - 1) + bi
    ensures Begun(i + 1) == n
  {
  }

  lemma OneMore(e: Cipher, iv: Counter, was: seq<Octet>, i: nat, n: nat, k: nat, done: seq<Octet>, more: seq<Octet>)
    requires IsBlockCipher(e) && i < |was| && k < BLOCK && i == BLOCK * n + k && Streamed(e, iv, was[..i], done)
    requires |done| == i && more == done + [Xor(was[i], StreamByte(e, iv, n, k))]
    ensures Streamed(e, iv, was[..i + 1], more)
  {
    forall b: nat, j: nat | j < BLOCK && BLOCK * b + j < i + 1
      ensures more[BLOCK * b + j] == Xor(was[..i + 1][BLOCK * b + j], StreamByte(e, iv, b, j))
    {
      if BLOCK * b + j < i {
        assert was[..i][BLOCK * b + j] == was[BLOCK * b + j];
      } else {
        assert b == n && j == k;
      }
    }
  }
}
