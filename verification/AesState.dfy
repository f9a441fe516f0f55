/** The software cipher of src/core/crypto/aes.c as it is written: one state, four columns of four
    bytes, that every step changes in place. */
module AesState {
  import opened AesTables
  import opened AesField
  import opened Aes

  // ---- the steps ---------------------------------------------------------------------------------

  method AddRoundKey(state: array<Column>, k: Block)
    requires state.Length == 4
    modifies state
    ensures state[..] == AddKey(old(state[..]), k)
  {
    for i := 0 to 4
      invariant forall j | 0 <= j < 4 :: state[j] == if j < i then XorColumn(old(state[j]), k[j]) else old(state[j])
    {
      state[i] := XorColumn(state[i], k[i]);
    }
  }

  /** A loop over the columns that replaces each by a function of itself. */
  method EachColumn(state: array<Column>, step: Column -> Column)
    requires state.Length == 4
    modifies state
    ensures forall j | 0 <= j < 4 :: state[j] == step(old(state[j]))
  {
    for i := 0 to 4
      invariant forall j | 0 <= j < 4 :: state[j] == if j < i then step(old(state[j])) else old(state[j])
    {
      state[i] := step(state[i]);
    }
  }

  method SubBytesInPlace(state: array<Column>)
    requires state.Length == 4
    modifies state
    ensures state[..] == SubBytes(old(state[..]))
  {
    EachColumn(state, SubColumn);
  }

  method InvSubBytesInPlace(state: array<Column>)
    requires state.Length == 4
    modifies state
    ensures state[..] == InvSubBytes(old(state[..]))
  {
    EachColumn(state, InvSubColumn);
  }

  /** Each row through a spare byte: the second one place left, the third two, the fourth three. */
  method ShiftRowsInPlace(state: array<Column>)
    requires state.Length == 4
    modifies state
    ensures state[..] == ShiftRows(old(state[..]))
  {
    var temp := state[0].r1;
    state[0] := state[0].(r1 := state[1].r1);
    state[1] := state[1].(r1 := state[2].r1);
    state[2] := state[2].(r1 := state[3].r1);
    state[3] := state[3].(r1 := temp);

    temp := state[0].r2;
    state[0] := state[0].(r2 := state[2].r2);
    state[2] := state[2].(r2 := temp);
    temp := state[1].r2;
    state[1] := state[1].(r2 := state[3].r2);
    state[3] := state[3].(r2 := temp);

    temp := state[0].r3;
    state[0] := state[0].(r3 := state[3].r3);
    state[3] := state[3].(r3 := state[2].r3);
    state[2] := state[2].(r3 := state[1].r3);
    state[1] := state[1].(r3 := temp);
  }

  method InvShiftRowsInPlace(state: array<Column>)
    requires state.Length == 4
    modifies state
    ensures state[..] == InvShiftRows(old(state[..]))
  {
    var temp := state[3].r1;
    state[3] := state[3].(r1 := state[2].r1);
    state[2] := state[2].(r1 := state[1].r1);
    state[1] := state[1].(r1 := state[0].r1);
    state[0] := state[0].(r1 := temp);

    temp := state[0].r2;
    state[0] := state[0].(r2 := state[2].r2);
    state[2] := state[2].(r2 := temp);
    temp := state[1].r2;
    state[1] := state[1].(r2 := state[3].r2);
    state[3] := state[3].(r2 := temp);

    temp := state[0].r3;
    state[0] := state[0].(r3 := state[1].r3);
    state[1] := state[1].(r3 := state[2].r3);
    state[2] := state[2].(r3 := state[3].r3);
    state[3] := state[3].(r3 := temp);
  }

  /** The sum of a column's bytes is the same from whichever it starts. */
  function Sum(a: bv8, b: bv8, c: bv8, d: bv8): bv8 { a ^ b ^ c ^ d }

  lemma SumRotates(a: bv8, b: bv8, c: bv8, d: bv8)
    ensures Sum(a, b, c, d) == Sum(b, c, d, a)
  {
  }

  /** A byte mixed, given its double with the next and the column's sum. */
  function Mixed(x: bv8, v: bv8, sum: bv8): bv8 { x ^ (v ^ sum) }

  lemma MixedIsCoded(a: bv8, b: bv8, c: bv8, d: bv8, v: bv8)
    ensures Mixed(a, v, Sum(a, b, c, d)) == Coded(a, b, c, d, v)
  {
  }

  /** A column mixed with `double` for the doubling. */
  function MixedBy(double: bv8 -> bv8, c: Column): Column {
    var s := Sum(c.r0, c.r1, c.r2, c.r3);
    Column(Mixed(c.r0, double(Add(c.r0, c.r1)), s), Mixed(c.r1, double(Add(c.r1, c.r2)), s),
           Mixed(c.r2, double(Add(c.r2, c.r3)), s), Mixed(c.r3, double(Add(c.r3, c.r0)), s))
  }

  lemma MixedByXTime(c: Column)
    ensures MixedBy(XTime, c) == MixColumn(c)
  {
    SumRotates(c.r0, c.r1, c.r2, c.r3);
    SumRotates(c.r1, c.r2, c.r3, c.r0);
    SumRotates(c.r2, c.r3, c.r0, c.r1);
    MixedIsCoded(c.r0, c.r1, c.r2, c.r3, XTime(Add(c.r0, c.r1)));
    MixedIsCoded(c.r1, c.r2, c.r3, c.r0, XTime(Add(c.r1, c.r2)));
    MixedIsCoded(c.r2, c.r3, c.r0, c.r1, XTime(Add(c.r2, c.r3)));
    MixedIsCoded(c.r3, c.r0, c.r1, c.r2, XTime(Add(c.r3, c.r0)));
  }

  /** A column byte by byte; the first byte is kept for the last, which wraps round to it. */
  method MixOne(state: array<Column>, i: nat, double: bv8 -> bv8)
    requires i < state.Length
    modifies state
    ensures state[i] == MixedBy(double, old(state[i]))
    ensures forall j | 0 <= j < state.Length && j != i :: state[j] == old(state[j])
  {
    var t := state[i].r0;
    var sum := Sum(state[i].r0, state[i].r1, state[i].r2, state[i].r3);
    state[i] := state[i].(r0 := Mixed(state[i].r0, double(Add(state[i].r0, state[i].r1)), sum));
    state[i] := state[i].(r1 := Mixed(state[i].r1, double(Add(state[i].r1, state[i].r2)), sum));
    state[i] := state[i].(r2 := Mixed(state[i].r2, double(Add(state[i].r2, state[i].r3)), sum));
    state[i] := state[i].(r3 := Mixed(state[i].r3, double(Add(state[i].r3, t)), sum));
  }

  /** All four columns mixed. */
  method MixEach(state: array<Column>, double: bv8 -> bv8)
    requires state.Length == 4
    modifies state
    ensures forall j | 0 <= j < 4 :: state[j] == MixedBy(double, old(state[j]))
  {
    for i := 0 to 4
      invariant forall j | 0 <= j < 4 :: state[j] == if j < i then MixedBy(double, old(state[j])) else old(state[j])
    {
      MixOne(state, i, double);
    }
  }

  method MixColumnsInPlace(state: array<Column>)
    requires state.Length == 4
    modifies state
    ensures state[..] == MixColumns(old(state[..]))
  {
    ghost var was := state[..];
    MixEach(state, XTime);
    forall j | 0 <= j < 4 ensures state[j] == MixColumn(was[j]) { MixedByXTime(was[j]); }
  }

  method InvMixColumnsInPlace(state: array<Column>)
    requires state.Length == 4
    modifies state
    ensures state[..] == InvMixColumns(old(state[..]))
  {
    EachColumn(state, InvMixColumn);
  }

  // ---- the ciphers -------------------------------------------------------------------------------

  /** Where a round begins: round key n - 1 added. */
  ghost predicate Begun(rk: Keys, n: nat, s: Block, state: seq<Column>) {
    1 <= n <= ROUNDS && state == AddKey(Unkeyed(rk, n - 1, s), rk[n - 1])
  }

  lemma RoundDone(rk: Keys, n: nat, s: Block, state: Block)
    requires n < ROUNDS && Begun(rk, n, s, state)
    ensures Begun(rk, n + 1, s, AddKey(MixColumns(ShiftRows(SubBytes(state))), rk[n]))
  {
  }

  lemma LastDone(rk: Keys, s: Block, state: Block)
    requires Begun(rk, ROUNDS, s, state)
    ensures AddKey(ShiftRows(SubBytes(state)), rk[ROUNDS]) == Encrypted(rk, s)
  {
  }

  /** `CipherSw`. */
  method CipherSw(state: array<Column>, rk: Keys)
    requires state.Length == 4
    modifies state
    ensures state[..] == Encrypted(rk, old(state[..]))
  {
    ghost var s, at := state[..], state[..];
    AddRoundKey(state, rk[0]);
    at := state[..];
    var round := 1;
    while true
      invariant 1 <= round <= ROUNDS && Begun(rk, round, s, at) && state[..] == at
      decreases ROUNDS - round
    {
      SubBytesInPlace(state);
      ShiftRowsInPlace(state);
      if round == ROUNDS {
        break;
      }
      MixColumnsInPlace(state);
      AddRoundKey(state, rk[round]);
      RoundDone(rk, round, s, at);
      at := state[..];
      round := round + 1;
    }
    LastDone(rk, s, at);
    AddRoundKey(state, rk[ROUNDS]);
  }

  /** `InvCipher`. */
  method InvCipher(state: array<Column>, rk: Keys)
    requires state.Length == 4
    modifies state
    ensures state[..] == Decrypted(rk, old(state[..]))
  {
    ghost var c := state[..];
    AddRoundKey(state, rk[ROUNDS]);
    var round := ROUNDS - 1;
    while true
      invariant 0 <= round < ROUNDS && state[..] == Before(rk, round, c)
      decreases round
    {
      InvShiftRowsInPlace(state);
      InvSubBytesInPlace(state);
      AddRoundKey(state, rk[round]);
      if round == 0 {
        break;
      }
      InvMixColumnsInPlace(state);
      round := round - 1;
    }
  }

  /** One after the other, they leave the state as it was. */
  method ThereAndBack(state: array<Column>, rk: Keys)
    requires state.Length == 4
    modifies state
    ensures state[..] == old(state[..])
  {
    DecryptEncrypt(rk, state[..]);
    CipherSw(state, rk);
    InvCipher(state, rk);
  }
}
