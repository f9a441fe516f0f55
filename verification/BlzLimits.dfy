/** Where the backwards LZ's round trip ends: a run of zeros whose compressed length does not fit the
    footer's 24 bits (tools/make_dsi_font.py). */
module BlzLimits {
  import opened Basics
  import opened BlzFormat
  import opened BlzEncoder
  import opened BlzDecoder
  import opened BlzProofs

  /** Three literals' worth of zeros and c full copies'. */
  function Length(c: nat): nat { 3 + 18 * c }

  function Zero(c: nat): (s: seq<byte>)
    ensures |s| == Length(c) && forall x | 0 <= x < |s| :: s[x] == 0
  {
    Fill(Length(c), 0)
  }

  lemma Palindrome(c: nat)
    ensures Reverse(Zero(c)) == Zero(c)
  {
  }

  lemma AllRepeat(rev: seq<byte>, i: nat, disp: nat, n: nat)
    requires disp <= i && i + n <= |rev| && forall x | 0 <= x < |rev| :: rev[x] == 0
    ensures Repeats(rev, i, disp, n)
  {
  }

  lemma {:induction false} FullLength(rev: seq<byte>, p: nat, i: nat, ln: nat)
    requires p < i && i + MAX_LEN <= |rev| && ln <= MAX_LEN && forall x | 0 <= x < |rev| :: rev[x] == 0
    ensures Extend(rev, p, i, ln) == MAX_LEN
    decreases MAX_LEN - ln
  {
    if ln < MAX_LEN { FullLength(rev, p, i, ln + 1); }
  }

  // ---- what the encoder chooses -----------------------------------------------------------

  /** Too near, all of them. */
  lemma {:induction false} NothingNear(lens: nat -> nat, i: nat, chain: seq<nat>, m: nat)
    requires m <= |chain| && i < 3 && forall x | 0 <= x < |chain| :: chain[x] < i
    ensures Scan(lens, i, chain, m, Match(0, 0)) == Match(0, 0)
  {
    if m > 0 { NothingNear(lens, i, chain, m - 1); }
  }

  lemma FirstLiterals(c: nat, i: nat)
    requires c > 0 && i < 3
    ensures Choose(Zero(c), i) == Lit(0)
  {
    var rev := Zero(c);
    var chain := Chain(rev, rev[i .. i + 3], i);
    ChainSound(rev, rev[i .. i + 3], i);
    NothingNear(Lengths(rev, i), i, chain, |chain|);
  }

  /** Three earlier positions in order reach back by three at least. */
  lemma NotAllLater(chain: seq<nat>, i: nat)
    requires |chain| >= 3 && Increasing(chain) && forall x | 0 <= x < |chain| :: chain[x] < i
    ensures chain[0] + 3 <= i
  {
    assert chain[0] < chain[1] && chain[1] < chain[2] && chain[2] < i;
  }

  lemma ThirdLastChained(c: nat, i: nat)
    requires 3 <= i && i + MAX_LEN <= Length(c)
    ensures i - 3 in Chain(Zero(c), Zero(c)[i .. i + 3], i)
  {
    var rev := Zero(c);
    var key := rev[i .. i + 3];
    assert rev[i - 3 .. i] == key;
    ChainSound(rev, key, i);
    ChainComplete(rev, key, i, i - 3);
    var chain := Chain(rev, key, i);
    if |chain| == CHAIN { NotAllLater(chain, i); }
  }

  lemma ThenCopies(c: nat, i: nat)
    requires 3 <= i && i + MAX_LEN <= Length(c)
    ensures Choose(Zero(c), i) == Copy(18, 3)
  {
    var rev := Zero(c);
    ThirdLastChained(c, i);
    AllRepeat(rev, i, 3, MIN_LEN);
    FullLength(rev, i - 3, i, MIN_LEN);
    ChooseLongest(rev, i, i - 3);
  }

  function Expected(k: nat): Token { if k < 3 then Lit(0) else Copy(18, 3) }

  ghost predicate AsExpected(ts: seq<Token>, c: nat) {
    |ts| == 3 + c && forall k | 0 <= k < |ts| :: ts[k] == Expected(k)
  }

  lemma CopyFrom(c: nat, i: nat)
    requires 3 <= i && i + 18 <= Length(c)
    ensures TokensFrom(Zero(c), i) == [Copy(18, 3)] + TokensFrom(Zero(c), i + 18)
  {
    ThenCopies(c, i);
  }

  /** The tokens from position i on, as a value. */
  function Rest(c: nat): nat -> seq<Token> {
    (i: nat) => if i <= Length(c) then TokensFrom(Zero(c), i) else []
  }

  ghost predicate CopiesOn(rest: nat -> seq<Token>, n: nat) {
    && rest(n) == []
    && forall i: nat | 3 <= i && i + 18 <= n :: rest(i) == [Copy(18, 3)] + rest(i + 18)
  }

  lemma RestCopies(c: nat)
    ensures CopiesOn(Rest(c), Length(c))
  {
    forall i: nat | 3 <= i && i + 18 <= Length(c) ensures Rest(c)(i) == [Copy(18, 3)] + Rest(c)(i + 18) {
      CopyFrom(c, i);
    }
  }

  lemma {:induction false} CopiesFrom(rest: nat -> seq<Token>, c: nat, j: nat)
    requires j <= c && CopiesOn(rest, Length(c))
    ensures rest(3 + 18 * j) == Copies(c - j)
    decreases c - j
  {
    if j < c {
      CopiesFrom(rest, c, j + 1);
      CopyFirst(c - j);
    }
  }

  function Copies(n: nat): (ts: seq<Token>)
    ensures |ts| == n && forall k | 0 <= k < n :: ts[k] == Copy(18, 3)
  {
    seq(n, _ => Copy(18, 3))
  }

  lemma CopyFirst(n: nat)
    requires n > 0
    ensures Copies(n) == [Copy(18, 3)] + Copies(n - 1)
  {
  }

  lemma LiteralFrom(c: nat, i: nat)
    requires c > 0 && i < 3
    ensures TokensFrom(Zero(c), i) == [Lit(0)] + TokensFrom(Zero(c), i + 1)
  {
    FirstLiterals(c, i);
  }

  lemma ZeroTokens(c: nat)
    requires c > 0
    ensures AsExpected(Tokens(Zero(c)), c)
  {
    RestCopies(c);
    CopiesFrom(Rest(c), c, 0);
    LiteralFrom(c, 0);
    LiteralFrom(c, 1);
    LiteralFrom(c, 2);
    Listed(TokensFrom(Zero(c), 0), c);
  }

  lemma Listed(ts: seq<Token>, c: nat)
    requires ts == [Lit(0)] + ([Lit(0)] + ([Lit(0)] + Copies(c)))
    ensures AsExpected(ts, c)
  {
  }

  // ---- where it cuts ------------------------------------------------------------------------

  lemma {:induction false} Sizes(ts: seq<Token>, c: nat, k: nat)
    requires AsExpected(ts, c) && k <= |ts|
    ensures k >= 3 ==> Start(ts, k) == 3 + 18 * (k - 3) && Off(ts, k) >= 2 * (k - 3)
    ensures Off(ts, k) <= 3 * k && (k < 3 ==> Start(ts, k) == k)
  {
    if k > 0 { Sizes(ts, c, k - 1); }
  }

  lemma {:induction false} SlackGrows(ts: seq<Token>, c: nat, j: nat)
    requires AsExpected(ts, c) && 3 < |ts| && j < |ts|
    ensures Slack(ts, j) < Slack(ts, |ts|)
    decreases |ts| - j
  {
    if j < 3 {
      Sizes(ts, c, j);
      FirstCopyPays(ts, c);
      if 4 < |ts| { SlackGrows(ts, c, 4); }
    } else if j < |ts| - 1 {
      SlackGrows(ts, c, j + 1);
    }
  }

  lemma FirstCopyPays(ts: seq<Token>, c: nat)
    requires AsExpected(ts, c) && 3 < |ts|
    ensures Slack(ts, 4) == 15 && Slack(ts, 0) <= 0 && Slack(ts, 1) <= 0 && Slack(ts, 2) <= 0
  {
    assert Off(ts, 1) == 2 && Start(ts, 1) == 1;
    assert Off(ts, 2) == 3 && Start(ts, 2) == 2;
    assert Off(ts, 3) == 4 && Start(ts, 3) == 3;
    assert Off(ts, 4) == 6 && Start(ts, 4) == 21;
  }

  lemma CutsNothing(ts: seq<Token>, c: nat)
    requires AsExpected(ts, c) && c > 0
    ensures Cut(ts, |ts|) == |ts|
  {
    var k := Cut(ts, |ts|);
    if k < |ts| { SlackGrows(ts, c, k); }
  }

  // ---- what it writes -----------------------------------------------------------------------

  lemma LastCopyBytes(ts: seq<Token>, c: nat)
    requires AsExpected(ts, c) && c > 0 && AllInRange(ts)
    ensures |Stream(ts, |ts|)| >= 2 && Stream(ts, |ts|)[|Stream(ts, |ts|)| - 2] == 0xF0
  {
    WriteToken(ts, |ts|);
    assert Word(18, 3) == 0xF000;
    var s, at := Stream(ts, |ts|), BytesAt(ts, |ts| - 1);
    assert s[at..][0] == TokenBytes(ts[|ts| - 1])[0];
  }

  /** What a plan is put together from. */
  ghost predicate Planned(l: Layout, raw: seq<byte>) {
    && l.ts == Tokens(Reverse(raw)) && l.cut == Cut(l.ts, |l.ts|)
    && Off(l.ts, l.cut) <= Off(l.ts, |l.ts|) && Start(l.ts, l.cut) <= |raw|
    && l.body == raw[..|raw| - Start(l.ts, l.cut)] + Reverse(Compressed(l.ts, l.cut))
    && 8 <= l.footer < 12 && l.encLen == Off(l.ts, l.cut) + l.footer
  }

  lemma PlanIsPlanned(raw: seq<byte>)
    ensures Planned(Plan(raw), raw)
  {
  }

  /** Nothing is left plain: the body is the whole stream, reversed. */
  ghost predicate AllCompressed(l: Layout, c: nat) {
    && AsExpected(l.ts, c) && |l.body| == Off(l.ts, |l.ts|) && l.encLen == |l.body| + l.footer
    && 8 <= l.footer < 12 && |l.body| >= 2 && l.body[1] == 0xF0
  }

  lemma ZeroPlan(l: Layout, c: nat)
    requires c > 0 && Planned(l, Zero(c))
    ensures AllCompressed(l, c)
  {
    Palindrome(c);
    ZeroTokens(c);
    CutsNothing(l.ts, c);
    Sizes(l.ts, c, |l.ts|);
    LastCopyBytes(l.ts, c);
    WholeStream(l, Zero(c));
  }

  lemma WholeStream(l: Layout, raw: seq<byte>)
    requires Planned(l, raw) && l.cut == |l.ts| && Start(l.ts, |l.ts|) == |raw|
    ensures l.body == Reverse(Stream(l.ts, |l.ts|))
  {
    assert Compressed(l.ts, l.cut) == Stream(l.ts, |l.ts|);
  }

  lemma ZeroPacks(l: Layout, c: nat)
    requires 2 <= c <= 0x800_0000 && AllCompressed(l, c)
    ensures Finished(l, Length(c)).Packed? && l.body <= Finished(l, Length(c)).data && l.encLen >= 2 * c
  {
    Sizes(l.ts, c, |l.ts|);
    FinishesPacked(l, c);
  }

  lemma FinishesPacked(l: Layout, c: nat)
    requires 2 <= c <= 0x800_0000 && 8 <= l.footer < 12 && |l.body| <= 3 * (3 + c) && l.encLen == |l.body| + l.footer
    ensures Length(c) - |l.body| - l.footer > 0
    ensures Finished(l, Length(c)) == Packed(Image(l, Length(c) - |l.body| - l.footer))
  {
  }

  /** A run of at least 150 million zeros is accepted and does not come back: the length field says
      that the first 16 MB are plain, and the second byte of the file is that of a copy. */
  lemma LongRunFails(c: nat)
    requires 0x80_0000 <= c <= 0x800_0000
    ensures Encode(Zero(c)).Packed?
    ensures var data := Encode(Zero(c)).data; Decode(data).Some? && Decode(data) != Some(Zero(c))
  {
    var raw, l := Zero(c), Plan(Zero(c));
    PlanIsPlanned(raw);
    ZeroPlan(l, c);
    ZeroPacks(l, c);
    var data := Encode(raw).data;
    DecodeEncoded(raw, data);
    HeadAtLeast(l.encLen);
    SecondByte(raw, data, HeadEnd(l, data), l.body);
  }

  lemma SecondByte(raw: seq<byte>, data: seq<byte>, e: nat, body: seq<byte>)
    requires 2 <= e <= |data| <= |raw| && |body| >= 2 && body <= data && body[1] != raw[1]
    ensures data[..e] + raw[e..] != raw
  {
    assert data[1] == body[1];
    assert (data[..e] + raw[e..])[1] == data[1];
  }

  lemma HeadAtLeast(n: nat)
    requires n >= 0x100_0000
    ensures n - n % 0x100_0000 >= 0x100_0000
  {
  }
}
