/** Counter mode under AES round keys (src/core/crypto/aes.c): the block cipher of a context. */
module AesStream {
  import Aes
  import AesState
  import opened AesCtr

  function ColumnAt(c: Counter, k: nat): Aes.Column
    requires k + 4 <= BLOCK
  {
    Aes.Column(c[k] as bv8, c[k + 1] as bv8, c[k + 2] as bv8, c[k + 3] as bv8)
  }

  /** The counter's bytes as a state. */
  function StateOf(c: Counter): Aes.Block
  {
    [ColumnAt(c, 0), ColumnAt(c, 4), ColumnAt(c, 8), ColumnAt(c, 12)]
  }

  function OctetsOf(c: Aes.Column): (r: seq<Octet>)
    ensures |r| == 4
  {
    [Octet(c.r0), Octet(c.r1), Octet(c.r2), Octet(c.r3)]
  }

  /** The bytes of a state as they lie in memory. */
  function BytesOf(s: Aes.Block): (r: seq<Octet>)
    ensures |r| == BLOCK
  {
    OctetsOf(s[0]) + OctetsOf(s[1]) + OctetsOf(s[2]) + OctetsOf(s[3])
  }

  /** The block cipher of a context that holds round keys rk. */
  function CipherOf(rk: Aes.Keys): Cipher { (c: Counter) => BytesOf(Aes.Encrypted(rk, StateOf(c))) }

  lemma IsCipher(rk: Aes.Keys)
    ensures IsBlockCipher(CipherOf(rk))
  {
    forall c: Counter ensures |CipherOf(rk)(c)| == BLOCK {
      assert CipherOf(rk)(c) == BytesOf(Aes.Encrypted(rk, StateOf(c)));
    }
  }

  /** One block of keystream as the code makes it: the counter copied, and the cipher run on the
      copy. */
  method KeystreamBlock(rk: Aes.Keys, c: Counter) returns (ks: seq<Octet>)
    ensures ks == CipherOf(rk)(c)
  {
    var at := StateOf(c);
    var state := new Aes.Column[4](i requires 0 <= i < 4 => at[i]);
    assert state[..] == at;
    AesState.CipherSw(state, rk);
    ks := BytesOf(state[..]);
  }

  /** Two contexts with the same round keys and counter: what one encrypts the other decrypts. */
  method EncryptThenDecrypt(rk: Aes.Keys, iv: Counter, buf: array<Octet>)
    modifies buf
    ensures buf[..] == old(buf[..])
  {
    IsCipher(rk);
    ghost var plain := buf[..];
    var sender := new Context(CipherOf(rk), iv);
    sender.XcryptBuffer(buf);
    ghost var sent := buf[..];
    var receiver := new Context(CipherOf(rk), iv);
    receiver.XcryptBuffer(buf);
    StreamTwice(CipherOf(rk), iv, plain, sent, buf[..]);
  }
}
