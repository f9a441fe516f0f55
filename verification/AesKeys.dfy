/** The key schedule of src/core/crypto/aes.c (section 5.2 of FIPS 197). */
module AesKeys {
  import opened AesTables
  import opened AesField
  import opened Aes

  const WORDS := 44

  /** `Rcon`: the powers of x. */
  function Rcon(n: nat): bv8
    requires 1 <= n <= 10
  {
    match n
    case 1 => 0x01
    case 2 => 0x02
    case 3 => 0x04
    case 4 => 0x08
    case 5 => 0x10
    case 6 => 0x20
    case 7 => 0x40
    case 8 => 0x80
    case 9 => 0x1b
    case _ => 0x36
  }

  /** A word turned up by one byte. */
  function Turned(c: Column): Column { Column(c.r1, c.r2, c.r3, c.r0) }

  /** What is added at the start of round key n: the word before it turned, substituted, and a power
      of x. */
  function Core(c: Column, n: nat): Column
    requires 1 <= n <= 10
  {
    XorColumn(SubColumn(Turned(c)), Column(Rcon(n), 0, 0, 0))
  }

  /** Word i from the word four before it and the one before it. */
  function Next(four: Column, one: Column, i: nat): Column
    requires 4 <= i < WORDS
  {
    XorColumn(four, if i % 4 == 0 then Core(one, i / 4) else one)
  }

  /** Word i of the schedule. */
  function Word(key: Block, i: nat): Column
    requires i < WORDS
  {
    if i < 4 then key[i] else Next(Word(key, i - 4), Word(key, i - 1), i)
  }

  lemma RconIsPower(n: nat)
    requires 1 <= n <= 10
    ensures Rcon(1) == 1 && (n > 1 ==> Rcon(n) == XTime(Rcon(n - 1)))
  {
  }

  /** Word 4 of the example in appendix A.1 of FIPS 197. */
  lemma FourthWord()
    ensures Next(Column(0x2b, 0x7e, 0x15, 0x16), Column(0x09, 0xcf, 0x4f, 0x3c), 4) == Column(0xa0, 0xfa, 0xfe, 0x17)
  {
  }

  /** `KeyExpansion`. */
  method KeyExpansion(roundKey: array<Column>, key: Block)
    requires roundKey.Length == WORDS
    modifies roundKey
    ensures Filled(roundKey, key, WORDS)
  {
    for i := 0 to 4
      invariant Filled(roundKey, key, i)
    {
      roundKey[i] := key[i];
    }
    for i := 4 to WORDS
      invariant Filled(roundKey, key, i)
    {
      var w := NextWord(roundKey[i - 4], roundKey[i - 1], i);
      assert w == Word(key, i);
      roundKey[i] := w;
    }
  }

  /** The first n words are there. */
  ghost predicate Filled(roundKey: array<Column>, key: Block, n: nat)
    requires n <= WORDS == roundKey.Length
    reads roundKey
  {
    forall j | 0 <= j < n :: roundKey[j] == Word(key, j)
  }

  method NextWord(four: Column, one: Column, i: nat) returns (w: Column)
    requires 4 <= i < WORDS
    ensures w == Next(four, one, i)
  {
    var temp := one;
    if i % 4 == 0 {
      temp := Mangled(temp, i / 4);
    }
    w := XorColumn(four, temp);
  }

  /** The bytes turned round, substituted, and the first one changed, one after the other. */
  method Mangled(word: Column, n: nat) returns (temp: Column)
    requires 1 <= n <= 10
    ensures temp == Core(word, n)
  {
    temp := word;
    var u := temp.r0;
    temp := temp.(r0 := temp.r1);
    temp := temp.(r1 := temp.r2);
    temp := temp.(r2 := temp.r3);
    temp := temp.(r3 := u);
    temp := Column(Sbox(temp.r0), Sbox(temp.r1), Sbox(temp.r2), Sbox(temp.r3));
    temp := temp.(r0 := temp.r0 ^ Rcon(n));
  }

  /** The round keys of a key. */
  function Expanded(key: Block): Keys {
    seq(ROUNDS + 1, r requires 0 <= r < ROUNDS + 1 => RoundKey(key, r))
  }

  function RoundKey(key: Block, r: nat): Block
    requires r <= ROUNDS
  {
    [Word(key, 4 * r), Word(key, 4 * r + 1), Word(key, 4 * r + 2), Word(key, 4 * r + 3)]
  }

  /** `AES_init_ctx`: the schedule of a key, as the cipher takes it. */
  method InitContext(key: Block) returns (rk: Keys)
    ensures rk == Expanded(key)
  {
    var words := new Column[WORDS](i => ZEROS);
    KeyExpansion(words, key);
    var w := words[..];
    assert forall i | 0 <= i < WORDS :: w[i] == Word(key, i);
    rk := seq(ROUNDS + 1, r requires 0 <= r < ROUNDS + 1 => [w[4 * r], w[4 * r + 1], w[4 * r + 2], w[4 * r + 3]]);
    assert forall r | 0 <= r <= ROUNDS :: rk[r] == RoundKey(key, r);
  }
}
