/** The token stream of the DSi's backwards LZ, as tools/make_dsi_font.py writes and reads it.

    Everything here is stated over the reversed data: the encoder walks it forwards,
    and the decoder, which fills its output from the last byte down, walks it forwards too. */
module BlzFormat {
  import opened Basics

  type byte = b: int | 0 <= b < 256

  const MIN_LEN := 3
  const MAX_LEN := 18
  const MIN_DISP := 3
  const MAX_DISP := 0x1002

  datatype Token = Lit(b: byte) | Copy(len: nat, disp: nat)

  predicate InRange(t: Token) {
    t.Copy? ==> MIN_LEN <= t.len <= MAX_LEN && MIN_DISP <= t.disp <= MAX_DISP
  }

  /** Input bytes a token stands for. */
  function Span(t: Token): nat { if t.Lit? then 1 else t.len }

  /** Stream bytes a token takes, its flag bit not counted. */
  function Size(t: Token): nat { if t.Lit? then 1 else 2 }

  /** The two bytes of a copy: length - 3 in the top four bits, distance - 3 in the rest. */
  function TokenBytes(t: Token): (s: seq<byte>)
    requires InRange(t)
    ensures |s| == Size(t)
  {
    match t
    case Lit(b) => [b]
    case Copy(len, disp) =>
      WordFits(len, disp);
      var v := Word(len, disp);
      [v / 0x100, v % 0x100]
  }

  function Word(len: nat, disp: nat): nat
    requires len >= 3 && disp >= 3
  {
    (len - 3) * 0x1000 + (disp - 3)
  }

  lemma WordFits(len: nat, disp: nat)
    requires 3 <= len <= MAX_LEN && 3 <= disp <= MAX_DISP
    ensures Word(len, disp) / 0x100 < 0x100
  {
    assert Word(len, disp) < 0x1_0000;
  }

  /** Token `t`, placed at input position `i`, reproduces the bytes of `rev` it stands for.
      A copy may reach into the bytes it is itself producing (disp < len). */
  ghost predicate Genuine(rev: seq<byte>, i: nat, t: Token) {
    && InRange(t)
    && i + Span(t) <= |rev|
    && match t
       case Lit(b) => rev[i] == b
       case Copy(len, disp) =>
         disp <= i && Repeats(rev, i, disp, len)
  }

  /** The n bytes at i are those `disp` before them, byte by byte. */
  ghost predicate Repeats(rev: seq<byte>, i: nat, disp: nat, n: nat)
    requires disp <= i && i + n <= |rev|
  {
    forall x: nat | i <= x < i + n :: Echo(rev, x, disp)
  }

  ghost predicate Echo(rev: seq<byte>, x: nat, disp: nat)
    requires disp <= x < |rev|
  {
    rev[x] == rev[x - disp]
  }

  // ---- flag bits ------------------------------------------------------------

  // `&` and `|` with a mask of one bit, by halving. Bytes are integers here, so that token
  // words can be computed with.

  predicate IsMask(m: nat) { m == 1 || (m > 1 && m % 2 == 0 && IsMask(m / 2)) }

  /** b & m != 0. */
  predicate Test(b: nat, m: nat)
    requires IsMask(m)
  {
    if m == 1 then b % 2 == 1 else Test(b / 2, m / 2)
  }

  /** b | m. */
  function Or(b: nat, m: nat): nat
    requires IsMask(m)
  {
    if m == 1 then b / 2 * 2 + 1 else Or(b / 2, m / 2) * 2 + b % 2
  }

  lemma {:induction false} TestOr(b: nat, m: nat, n: nat)
    requires IsMask(m) && IsMask(n)
    ensures Test(Or(b, m), n) == (m == n || Test(b, n))
  {
    HalfOr(b, m);
    if m > 1 && n > 1 {
      TestOr(b / 2, m / 2, n / 2);
    }
  }

  lemma HalfOr(b: nat, m: nat)
    requires IsMask(m)
    ensures Or(b, m) / 2 == if m == 1 then b / 2 else Or(b / 2, m / 2)
    ensures Or(b, m) % 2 == if m == 1 then 1 else b % 2
  {
  }

  lemma {:induction false} OrBelow(b: nat, m: nat, top: nat)
    requires IsMask(m) && IsMask(top) && m <= top && b < 2 * top
    ensures Or(b, m) < 2 * top
  {
    if m > 1 {
      OrBelow(b / 2, m / 2, top / 2);
    }
  }

  lemma {:induction false} ZeroTest(m: nat)
    requires IsMask(m)
    ensures !Test(0, m)
  {
    if m > 1 { ZeroTest(m / 2); }
  }

  lemma {:induction false} Pow2IsMask(k: nat)
    ensures IsMask(Pow2(k))
  {
    if k > 0 { Pow2IsMask(k - 1); }
  }

  lemma {:induction false} Pow2Grows(j: nat, k: nat)
    requires j < k
    ensures Pow2(j) < Pow2(k)
  {
    if j + 1 < k { Pow2Grows(j, k - 1); }
  }

  lemma Pow2Differ(j: nat, k: nat)
    ensures Pow2(j) == Pow2(k) <==> j == k
  {
    if j < k { Pow2Grows(j, k); } else if k < j { Pow2Grows(k, j); }
  }

  /** The flag bit of the t-th token of a group: 0x80 shifted right t times. */
  function Mask(t: nat): (m: nat)
    requires t < 8
    ensures IsMask(m)
  {
    Pow2IsMask(7 - t);
    Pow2(7 - t)
  }

  lemma TopMask()
    ensures Mask(0) == 0x80
  {
    assert Pow2(1) == 2 && Pow2(2) == 4;
    assert Pow2(3) == 8 && Pow2(4) == 0x10;
    assert Pow2(5) == 0x20 && Pow2(6) == 0x40;
  }

  /** The encoder's and the decoder's shift: the bit after the last is 0. */
  lemma NextMask(t: nat)
    requires t < 8
    ensures Mask(t) / 2 == if t == 7 then 0 else Mask(t + 1)
  {
  }

  /** flags | 0x80 >> t. */
  function SetBit(flags: byte, t: nat): (f: byte)
    requires t < 8
  {
    SetBitFits(flags, t);
    Or(flags, Mask(t))
  }

  lemma SetBitFits(flags: byte, t: nat)
    requires t < 8
    ensures Or(flags, Mask(t)) < 256
  {
    TopMask();
    if t > 0 { Pow2Grows(7 - t, 7); }
    OrBelow(flags, Mask(t), 0x80);
  }

  /** Setting bit t sets bit t and no other. */
  lemma SetBitOnly(flags: byte, t: nat, u: nat)
    requires t < 8 && u < 8
    ensures Test(SetBit(flags, t), Mask(u)) == (t == u || Test(flags, Mask(u)))
  {
    TestOr(flags, Mask(t), Mask(u));
    Pow2Differ(7 - t, 7 - u);
  }

  // ---- positions ------------------------------------------------------------

  /** Input position at which token k starts. */
  function Start(ts: seq<Token>, k: nat): nat
    requires k <= |ts|
  {
    if k == 0 then 0 else Start(ts, k - 1) + Span(ts[k - 1])
  }

  /** Token j is genuine where it stands. */
  ghost predicate GenuineAt(rev: seq<byte>, ts: seq<Token>, j: nat)
    requires j < |ts|
  {
    Genuine(rev, Start(ts, j), ts[j])
  }

  /** Stream length once k tokens are written: one flag byte opens every group of eight. */
  function Off(ts: seq<Token>, k: nat): nat
    requires k <= |ts|
  {
    if k == 0 then 0
    else Off(ts, k - 1) + (if (k - 1) % 8 == 0 then 1 else 0) + Size(ts[k - 1])
  }

  /** The first token of token k's group. */
  function Base(k: nat): (g: nat)
    ensures g <= k && g % 8 == 0 && k == g + k % 8
  {
    if k % 8 == 0 then k else Base(k - 1)
  }

  lemma {:induction false} SameGroup(j: nat, k: nat)
    requires j < k
    ensures Base(j) == Base(k) || j < Base(k)
    decreases k
  {
    if k % 8 != 0 && j < k - 1 { SameGroup(j, k - 1); }
  }

  /** Where token k's flag byte is. */
  function FlagAt(ts: seq<Token>, k: nat): nat
    requires k <= |ts|
  {
    Off(ts, Base(k))
  }

  /** Token k and its successor: the next lane of the same flag byte, or the end of a group. */
  lemma NextLaneOf(ts: seq<Token>, k: nat)
    requires k < |ts|
    ensures if (k + 1) % 8 == 0 then k % 8 == 7
            else (k + 1) % 8 == k % 8 + 1 && FlagAt(ts, k + 1) == FlagAt(ts, k)
  {
    assert Base(k + 1) == if (k + 1) % 8 == 0 then k + 1 else Base(k);
  }

  /** Where token k's own bytes are. */
  function BytesAt(ts: seq<Token>, k: nat): nat
    requires k <= |ts|
  {
    Off(ts, k) + if k % 8 == 0 then 1 else 0
  }

  lemma {:induction false} OffGrows(ts: seq<Token>, j: nat, k: nat)
    requires j < k <= |ts|
    ensures Off(ts, j) + (if j % 8 == 0 then 1 else 0) + Size(ts[j]) <= Off(ts, k)
    decreases k
  {
    if j < k - 1 { OffGrows(ts, j, k - 1); }
  }

  lemma OffMonotone(ts: seq<Token>, j: nat, k: nat)
    requires j <= k <= |ts|
    ensures Off(ts, j) <= Off(ts, k)
  {
    if j < k { OffGrows(ts, j, k); }
  }

  lemma {:induction false} StartGrows(ts: seq<Token>, j: nat, k: nat)
    requires j <= k <= |ts|
    ensures Start(ts, j) <= Start(ts, k)
    decreases k
  {
    if j < k { StartGrows(ts, j, k - 1); }
  }

  lemma FlagBelow(ts: seq<Token>, j: nat, k: nat)
    requires j < k <= |ts|
    ensures FlagAt(ts, j) < Off(ts, k)
  {
    OffGrows(ts, j, k);
    FlagInside(ts, j);
  }

  // ---- the stream -----------------------------------------------------------

  ghost predicate AllInRange(ts: seq<Token>) { forall j | 0 <= j < |ts| :: InRange(ts[j]) }

  /** The stream after k tokens, flag bits of the unfinished group included. */
  function Stream(ts: seq<Token>, k: nat): (s: seq<byte>)
    requires k <= |ts| && AllInRange(ts)
    ensures |s| == Off(ts, k)
    decreases k, 0
  {
    if k == 0 then []
    else
      FlagInside(ts, k - 1);
      Stamped(Opened(ts, k - 1), FlagAt(ts, k - 1), (k - 1) % 8, ts[k - 1].Copy?) + TokenBytes(ts[k - 1])
  }

  /** ... with the flag byte of token k's group there. */
  function Opened(ts: seq<Token>, k: nat): (s: seq<byte>)
    requires k <= |ts| && AllInRange(ts)
    ensures |s| == BytesAt(ts, k)
    decreases k, 1
  {
    if k % 8 == 0 then Stream(ts, k) + [0] else Stream(ts, k)
  }

  /** A flag byte with the bit of lane t set, for a copy. */
  function Stamped(s: seq<byte>, f: nat, t: nat, copy: bool): (r: seq<byte>)
    requires f < |s| && t < 8
    ensures |r| == |s| && forall x | 0 <= x < |s| && x != f :: r[x] == s[x]
  {
    if copy then s[f := SetBit(s[f], t)] else s
  }

  lemma FlagInside(ts: seq<Token>, k: nat)
    requires k < |ts|
    ensures FlagAt(ts, k) < BytesAt(ts, k)
    ensures k % 8 != 0 ==> FlagAt(ts, k) < Off(ts, k)
  {
    if k % 8 != 0 { OffGrows(ts, Base(k), k); }
  }

  /** What a reader of `s` finds where token j should be. */
  ghost predicate TokenAt(s: seq<byte>, ts: seq<Token>, j: nat)
    requires j < |ts| && AllInRange(ts)
  {
    var a, t := BytesAt(ts, j), ts[j];
    && FlagAt(ts, j) < |s|
    && a + Size(t) <= |s|
    && s[a .. a + Size(t)] == TokenBytes(t)
    && Test(s[FlagAt(ts, j)], Mask(j % 8)) == t.Copy?
  }

  /** The first k tokens of `ts` can be read from `s`. The flag byte of the last group
      may carry bits of tokens past k: they are never tested. */
  ghost predicate Reads(s: seq<byte>, ts: seq<Token>, k: nat)
    requires k <= |ts| && AllInRange(ts)
  {
    forall j | 0 <= j < k :: TokenAt(s, ts, j)
  }

  ghost predicate RestClear(s: seq<byte>, ts: seq<Token>, k: nat)
    requires k <= |ts| && AllInRange(ts)
  {
    k % 8 != 0 ==> FlagAt(ts, k) < |s| && Clear(s[FlagAt(ts, k)], k % 8)
  }

  lemma {:induction false} StreamReads(ts: seq<Token>, k: nat)
    requires k <= |ts| && AllInRange(ts)
    ensures Reads(Stream(ts, k), ts, k)
    ensures RestClear(Stream(ts, k), ts, k)
  {
    if k > 0 {
      StreamReads(ts, k - 1);
      StreamStep(ts, k);
    }
  }

  lemma StreamStep(ts: seq<Token>, k: nat)
    requires 0 < k <= |ts| && AllInRange(ts)
    requires Reads(Stream(ts, k - 1), ts, k - 1)
    requires RestClear(Stream(ts, k - 1), ts, k - 1)
    ensures Reads(Stream(ts, k), ts, k)
    ensures RestClear(Stream(ts, k), ts, k)
  {
    AllEarlierKept(ts, k);
    NewTokenAt(ts, k);
    OneMoreRead(Stream(ts, k), ts, k);
  }

  lemma AllEarlierKept(ts: seq<Token>, k: nat)
    requires 0 < k <= |ts| && AllInRange(ts) && Reads(Stream(ts, k - 1), ts, k - 1)
    ensures Reads(Stream(ts, k), ts, k - 1)
  {
    forall j | 0 <= j < k - 1 ensures TokenAt(Stream(ts, k), ts, j) {
      assert TokenAt(Stream(ts, k - 1), ts, j);
      EarlierKept(ts, k, j);
    }
  }

  lemma OneMoreRead(s: seq<byte>, ts: seq<Token>, k: nat)
    requires 0 < k <= |ts| && AllInRange(ts) && Reads(s, ts, k - 1) && TokenAt(s, ts, k - 1)
    ensures Reads(s, ts, k)
  {
  }

  /** The token just written can be read, and the bits of the lanes after it are clear. */
  lemma NewTokenAt(ts: seq<Token>, k: nat)
    requires 0 < k <= |ts| && AllInRange(ts)
    requires RestClear(Stream(ts, k - 1), ts, k - 1)
    ensures TokenAt(Stream(ts, k), ts, k - 1)
    ensures RestClear(Stream(ts, k), ts, k)
  {
    JustWritten(ts, k);
    LastRead(Stream(ts, k), ts, k - 1);
    LastRestClear(Stream(ts, k), ts, k - 1);
  }

  /** Token j's bytes end `s`, and its flag byte holds its lane's bit and none after it. */
  ghost predicate Last(s: seq<byte>, ts: seq<Token>, j: nat)
    requires j < |ts| && AllInRange(ts)
  {
    && FlagAt(ts, j) < BytesAt(ts, j)
    && BytesAt(ts, j) + Size(ts[j]) == |s|
    && s[BytesAt(ts, j)..] == TokenBytes(ts[j])
    && Test(s[FlagAt(ts, j)], Mask(j % 8)) == ts[j].Copy?
    && Clear(s[FlagAt(ts, j)], j % 8 + 1)
  }

  lemma JustWritten(ts: seq<Token>, k: nat)
    requires 0 < k <= |ts| && AllInRange(ts)
    requires RestClear(Stream(ts, k - 1), ts, k - 1)
    ensures Last(Stream(ts, k), ts, k - 1)
  {
    WriteToken(ts, k);
    NewFlag(ts, k);
  }

  lemma LastRead(s: seq<byte>, ts: seq<Token>, j: nat)
    requires j < |ts| && AllInRange(ts) && Last(s, ts, j)
    ensures TokenAt(s, ts, j)
  {
    assert s[BytesAt(ts, j)..|s|] == s[BytesAt(ts, j)..];
  }

  lemma LastRestClear(s: seq<byte>, ts: seq<Token>, j: nat)
    requires j < |ts| && AllInRange(ts) && Last(s, ts, j)
    ensures RestClear(s, ts, j + 1)
  {
    NextLaneOf(ts, j);
  }

  lemma NewFlag(ts: seq<Token>, k: nat)
    requires 0 < k <= |ts| && AllInRange(ts)
    requires RestClear(Stream(ts, k - 1), ts, k - 1)
    ensures FlagAt(ts, k - 1) < |Stream(ts, k)|
    ensures var g := Stream(ts, k)[FlagAt(ts, k - 1)];
      Test(g, Mask((k - 1) % 8)) == ts[k - 1].Copy? && Clear(g, (k - 1) % 8 + 1)
  {
    WriteToken(ts, k);
    ClearBefore(ts, k);
    LaneWritten(FlagBefore(ts, k), (k - 1) % 8, ts[k - 1].Copy?);
  }

  /** The next token onto an opened stream. */
  lemma StreamNext(ts: seq<Token>, k: nat)
    requires k < |ts| && AllInRange(ts)
    ensures FlagAt(ts, k) < |Opened(ts, k)|
    ensures Stream(ts, k + 1) == Stamped(Opened(ts, k), FlagAt(ts, k), k % 8, ts[k].Copy?) + TokenBytes(ts[k])
  {
    FlagInside(ts, k);
  }

  ghost predicate Clear(flags: byte, t: nat) {
    forall u | t <= u < 8 :: !Test(flags, Mask(u))
  }

  lemma ClearBefore(ts: seq<Token>, k: nat)
    requires 0 < k <= |ts| && AllInRange(ts)
    requires RestClear(Stream(ts, k - 1), ts, k - 1)
    ensures Clear(FlagBefore(ts, k), (k - 1) % 8)
  {
    forall u | 0 <= u < 8 ensures !Test(0, Mask(u)) { ZeroTest(Mask(u)); }
  }

  lemma LaneWritten(flags: byte, t: nat, copy: bool)
    requires t < 8 && Clear(flags, t)
    ensures var g := if copy then SetBit(flags, t) else flags; Test(g, Mask(t)) == copy && Clear(g, t + 1)
  {
    forall u | t <= u < 8 ensures Test(SetBit(flags, t), Mask(u)) == (u == t) {
      SetBitOnly(flags, t, u);
    }
  }

  /** The flag byte in force just before token k - 1 is written. */
  function FlagBefore(ts: seq<Token>, k: nat): byte
    requires 0 < k <= |ts| && AllInRange(ts)
  {
    FlagInside(ts, k - 1);
    if (k - 1) % 8 == 0 then 0 else Stream(ts, k - 1)[FlagAt(ts, k - 1)]
  }

  /** Writing token k - 1 sets at most its own flag bit and appends its bytes ... */
  lemma WriteToken(ts: seq<Token>, k: nat)
    requires 0 < k <= |ts| && AllInRange(ts)
    ensures FlagAt(ts, k - 1) < BytesAt(ts, k - 1)
    ensures BytesAt(ts, k - 1) + Size(ts[k - 1]) == |Stream(ts, k)|
    ensures Stream(ts, k)[BytesAt(ts, k - 1)..] == TokenBytes(ts[k - 1])
    ensures Stream(ts, k)[FlagAt(ts, k - 1)] ==
            if ts[k - 1].Copy? then SetBit(FlagBefore(ts, k), (k - 1) % 8) else FlagBefore(ts, k)
  {
    FlagInside(ts, k - 1);
  }

  /** ... and leaves everything else alone. */
  lemma WriteKeeps(ts: seq<Token>, k: nat)
    requires 0 < k <= |ts| && AllInRange(ts)
    ensures Off(ts, k - 1) <= Off(ts, k)
    ensures forall x | 0 <= x < Off(ts, k - 1) && x != FlagAt(ts, k - 1) ::
              Stream(ts, k)[x] == Stream(ts, k - 1)[x]
  {
    FlagInside(ts, k - 1);
  }

  /** Bytes may be appended, and other lanes of one flag byte may change, under a token's feet. */
  lemma Framed(s0: seq<byte>, s: seq<byte>, ts: seq<Token>, j: nat, f: nat)
    requires j < |ts| && AllInRange(ts) && TokenAt(s0, ts, j)
    requires |s0| <= |s| && f < |s|
    requires f < BytesAt(ts, j) || BytesAt(ts, j) + Size(ts[j]) <= f
    requires forall x | 0 <= x < |s0| && x != f :: s[x] == s0[x]
    requires FlagAt(ts, j) == f ==> Test(s[f], Mask(j % 8)) == Test(s0[f], Mask(j % 8))
    ensures TokenAt(s, ts, j)
  {
    var a := BytesAt(ts, j);
    SameBytes(s0, s, a, a + Size(ts[j]), f);
  }

  lemma SameBytes(s0: seq<byte>, s: seq<byte>, a: nat, b: nat, f: nat)
    requires a <= b <= |s0| <= |s| && (f < a || b <= f)
    requires forall x | 0 <= x < |s0| && x != f :: s[x] == s0[x]
    ensures s[a .. b] == s0[a .. b]
  {
  }

  /** Writing token k - 1 leaves what a reader sees of the tokens before it. */
  lemma EarlierKept(ts: seq<Token>, k: nat, j: nat)
    requires j < k - 1 < |ts| && AllInRange(ts)
    requires TokenAt(Stream(ts, k - 1), ts, j)
    ensures TokenAt(Stream(ts, k), ts, j)
  {
    WriteToken(ts, k);
    WriteKeeps(ts, k);
    EarlierApart(ts, j, k - 1);
    if FlagAt(ts, j) == FlagAt(ts, k - 1) {
      SetBitOnly(FlagBefore(ts, k), (k - 1) % 8, j % 8);
    }
    Framed(Stream(ts, k - 1), Stream(ts, k), ts, j, FlagAt(ts, k - 1));
  }

  /** Token j's bytes end before token k's begin and avoid token k's flag byte; the two
      share a flag byte only within one group. */
  lemma EarlierApart(ts: seq<Token>, j: nat, k: nat)
    requires j < k < |ts|
    ensures BytesAt(ts, j) + Size(ts[j]) <= Off(ts, k)
    ensures FlagAt(ts, j) < Off(ts, k)
    ensures FlagAt(ts, k) < BytesAt(ts, j) || BytesAt(ts, j) + Size(ts[j]) <= FlagAt(ts, k)
    ensures FlagAt(ts, j) == FlagAt(ts, k) ==> j % 8 < k % 8
  {
    OffGrows(ts, j, k);
    FlagInside(ts, j);
    SameGroup(j, k);
    if j < Base(k) {
      OffGrows(ts, j, Base(k));
    }
  }

  /** Reading k tokens needs no more than the first Off(ts, k) bytes. */
  lemma ReadsPrefix(s: seq<byte>, p: seq<byte>, ts: seq<Token>, k: nat)
    requires k <= |ts| && AllInRange(ts) && Reads(s, ts, k)
    requires Off(ts, k) <= |s| && p == s[..Off(ts, k)]
    ensures Reads(p, ts, k)
  {
    forall j | 0 <= j < k ensures TokenAt(p, ts, j) {
      assert TokenAt(s, ts, j);
      TokenInPrefix(s, ts, j, k);
    }
  }

  lemma TokenInPrefix(s: seq<byte>, ts: seq<Token>, j: nat, k: nat)
    requires j < k <= |ts| && AllInRange(ts) && TokenAt(s, ts, j) && Off(ts, k) <= |s|
    ensures TokenAt(s[..Off(ts, k)], ts, j)
  {
    OffGrows(ts, j, k);
    FlagInside(ts, j);
    SliceOfPrefix(s, Off(ts, k), BytesAt(ts, j), BytesAt(ts, j) + Size(ts[j]));
  }

  lemma SliceOfPrefix(s: seq<byte>, n: nat, a: nat, b: nat)
    requires a <= b <= n <= |s|
    ensures s[..n][a .. b] == s[a .. b]
  {
  }
}
