/** `blz_encode` of tools/make_dsi_font.py: the hash-chain match finder, the token stream,
    the cut that keeps decompression in place, and the packed image. */
module BlzEncoder {
  import opened Basics
  import opened BlzFormat

  const CHAIN := 16

  // ---- the match finder -----------------------------------------------------

  /** Append to a chain that keeps the last sixteen positions. */
  function Push(chain: seq<nat>, k: nat): seq<nat> {
    var longer := chain + [k];
    if |longer| > CHAIN then longer[1..] else longer
  }

  /** The dictionary entry of `key` once positions 0 .. i have been registered. */
  function Chain(rev: seq<byte>, key: seq<byte>, i: nat): (c: seq<nat>)
    requires i <= |rev|
    ensures |c| <= CHAIN
  {
    if i == 0 then []
    else
      var c := Chain(rev, key, i - 1);
      if i + 2 <= |rev| && rev[i - 1 .. i + 2] == key then Push(c, i - 1) else c
  }

  /** Every chained position holds the key, and the chain is ascending. */
  lemma {:induction false} ChainSound(rev: seq<byte>, key: seq<byte>, i: nat)
    requires i <= |rev| && |key| == 3
    ensures forall x | 0 <= x < |Chain(rev, key, i)| ::
              var p := Chain(rev, key, i)[x]; p < i && p + 3 <= |rev| && rev[p .. p + 3] == key
    ensures forall x, y | 0 <= x < y < |Chain(rev, key, i)| :: Chain(rev, key, i)[x] < Chain(rev, key, i)[y]
  {
    if i > 0 { ChainSound(rev, key, i - 1); }
  }

  /** An occurrence missing from the chain is older than all sixteen that are in it. */
  lemma {:induction false} ChainComplete(rev: seq<byte>, key: seq<byte>, i: nat, p: nat)
    requires p < i <= |rev| && |key| == 3 && p + 3 <= |rev| && rev[p .. p + 3] == key
    ensures Recent(Chain(rev, key, i), p)
  {
    if p < i - 1 {
      ChainComplete(rev, key, i - 1, p);
      ChainSound(rev, key, i - 1);
      PushRecent(Chain(rev, key, i - 1), i - 1, p);
    } else {
      PushLast(Chain(rev, key, p), p);
    }
  }

  ghost predicate Recent(chain: seq<nat>, p: nat) {
    p in chain || (|chain| == CHAIN && forall x | 0 <= x < |chain| :: p < chain[x])
  }

  lemma PushLast(chain: seq<nat>, k: nat)
    ensures k in Push(chain, k)
  {
    assert Push(chain, k)[|Push(chain, k)| - 1] == k;
  }

  lemma PushRecent(chain: seq<nat>, k: nat, p: nat)
    requires |chain| <= CHAIN && Recent(chain, p) && p < k
    requires forall x, y | 0 <= x < y < |chain| :: chain[x] < chain[y]
    ensures Recent(Push(chain, k), p)
  {
    var d := Push(chain, k);
    if p in chain {
      var x :| 0 <= x < |chain| && chain[x] == p;
      if |d| == |chain| + 1 {
        assert d[x] == p;
      } else if x > 0 {
        assert d[x - 1] == p;
      }
    }
  }

  /** How far the match of `i` with `p` runs, from `ln` bytes on. */
  function Extend(rev: seq<byte>, p: nat, i: nat, ln: nat): (n: nat)
    requires p < i && i + ln <= |rev| && ln <= MAX_LEN
    ensures ln <= n <= MAX_LEN && i + n <= |rev|
    ensures n == MAX_LEN || i + n == |rev| || rev[p + n] != rev[i + n]
    decreases MAX_LEN - ln
  {
    if ln < MAX_LEN && i + ln < |rev| && rev[p + ln] == rev[i + ln] then Extend(rev, p, i, ln + 1) else ln
  }

  /** The bytes it runs over are the same. */
  lemma {:induction false} ExtendRepeats(rev: seq<byte>, p: nat, i: nat, ln: nat)
    requires p < i && i + ln <= |rev| && ln <= MAX_LEN && Repeats(rev, i, i - p, ln)
    ensures Repeats(rev, i, i - p, Extend(rev, p, i, ln))
    decreases MAX_LEN - ln
  {
    if ln < MAX_LEN && i + ln < |rev| && rev[p + ln] == rev[i + ln] {
      assert Echo(rev, i + ln, i - p);
      ExtendRepeats(rev, p, i, ln + 1);
    }
  }

  datatype Match = Match(len: nat, disp: nat)

  /** Positions that may be matched with i: earlier ones that share its next three bytes. */
  ghost predicate Candidates(rev: seq<byte>, i: nat, chain: seq<nat>) {
    i + MIN_LEN <= |rev| && forall x | 0 <= x < |chain| :: Candidate(rev, i, chain[x])
  }

  ghost predicate Candidate(rev: seq<byte>, i: nat, p: nat)
    requires i + MIN_LEN <= |rev|
  {
    p < i && Repeats(rev, i, i - p, MIN_LEN)
  }

  /** How far a match of `i` with an earlier position that shares its next three bytes runs. */
  function Lengths(rev: seq<byte>, i: nat): nat -> nat {
    (p: nat) => if p < i && i + MIN_LEN <= |rev| then Extend(rev, p, i, MIN_LEN) else 0
  }

  /** The best match once position m - 1 of the chain has been looked at. */
  function Considered(lens: nat -> nat, i: nat, chain: seq<nat>, m: nat, best: Match): Match
    requires 0 < m <= |chain|
  {
    var disp: int := i - chain[m - 1];
    if MIN_DISP <= disp <= MAX_DISP && lens(chain[m - 1]) > best.len then Match(lens(chain[m - 1]), disp) else best
  }

  /** The scan over the first m positions of a chain, newest first, the length of each match given
      by `lens`: it gives up at the first candidate out of reach and stops at the first match of full
      length. */
  function Scan(lens: nat -> nat, i: nat, chain: seq<nat>, m: nat, best: Match): Match
    requires m <= |chain|
  {
    if m == 0 then best
    else
      var b := Considered(lens, i, chain, m, best);
      if i - chain[m - 1] > MAX_DISP || b.len == MAX_LEN then b else Scan(lens, i, chain, m - 1, b)
  }

  ghost predicate GenuineMatch(rev: seq<byte>, i: nat, m: Match) {
    m.len > 0 ==> Genuine(rev, i, Copy(m.len, m.disp))
  }

  lemma {:induction false} ScanSound(rev: seq<byte>, i: nat, chain: seq<nat>, m: nat, best: Match)
    requires m <= |chain| && Candidates(rev, i, chain) && GenuineMatch(rev, i, best)
    ensures GenuineMatch(rev, i, Scan(Lengths(rev, i), i, chain, m, best))
  {
    if m > 0 {
      ConsideredSound(rev, i, chain, m, best);
      ScanSound(rev, i, chain, m - 1, Considered(Lengths(rev, i), i, chain, m, best));
    }
  }

  lemma ConsideredSound(rev: seq<byte>, i: nat, chain: seq<nat>, m: nat, best: Match)
    requires 0 < m <= |chain| && Candidates(rev, i, chain) && GenuineMatch(rev, i, best)
    ensures GenuineMatch(rev, i, Considered(Lengths(rev, i), i, chain, m, best))
  {
    assert Candidate(rev, i, chain[m - 1]);
    ExtendRepeats(rev, chain[m - 1], i, MIN_LEN);
  }

  /** The two early exits lose nothing: on an ascending chain the result is at least as long
      as any reachable candidate, and of the longest it is the nearest. */
  lemma {:induction false} ScanLongest(lens: nat -> nat, i: nat, chain: seq<nat>, m: nat, best: Match, x: nat)
    requires x < m <= |chain| && Increasing(chain) && forall p :: lens(p) <= MAX_LEN
    requires MIN_DISP <= i - chain[x] <= MAX_DISP && best.len <= MAX_LEN
    ensures var n, r := lens(chain[x]), Scan(lens, i, chain, m, best);
            n <= r.len && (best.len < n == r.len ==> r.disp <= i - chain[x])
  {
    assert i - chain[m - 1] <= i - chain[x];
    var next := Considered(lens, i, chain, m, best);
    ScanGrows(lens, i, chain, m - 1, next);
    if x < m - 1 {
      ScanLongest(lens, i, chain, m - 1, next, x);
    }
  }

  /** A scan returns what it was given unless it found something strictly longer. */
  lemma {:induction false} ScanGrows(lens: nat -> nat, i: nat, chain: seq<nat>, m: nat, best: Match)
    requires m <= |chain|
    ensures Scan(lens, i, chain, m, best) == best || Scan(lens, i, chain, m, best).len > best.len
  {
    if m > 0 {
      ScanGrows(lens, i, chain, m - 1, Considered(lens, i, chain, m, best));
    }
  }

  lemma ChainCandidates(rev: seq<byte>, i: nat)
    requires i + 3 <= |rev|
    ensures Candidates(rev, i, Chain(rev, rev[i .. i + 3], i))
  {
    var key := rev[i .. i + 3];
    ChainSound(rev, key, i);
    var c := Chain(rev, key, i);
    forall x | 0 <= x < |c| ensures Candidate(rev, i, c[x]) {
      ghost var d := i - c[x];
      forall y: nat | i <= y < i + 3 ensures Echo(rev, y, d) {
        assert rev[c[x] .. c[x] + 3][y - i] == key[y - i];
      }
    }
  }

  // ---- the token list -------------------------------------------------------

  /** The greedy choice at input position i. */
  function Choose(rev: seq<byte>, i: nat): (t: Token)
    requires i < |rev|
    ensures Genuine(rev, i, t)
  {
    if i + 3 <= |rev| then
      ChainCandidates(rev, i);
      var chain := Chain(rev, rev[i .. i + 3], i);
      var m := Scan(Lengths(rev, i), i, chain, |chain|, Match(0, 0));
      ScanSound(rev, i, chain, |chain|, Match(0, 0));
      if m.len >= MIN_LEN then Copy(m.len, m.disp) else Lit(rev[i])
    else Lit(rev[i])
  }

  /** The choice is a copy as soon as one of the sixteen latest occurrences of the next three
      bytes is in reach; no such occurrence matches further, and none that matches as far is
      nearer. */
  lemma ChooseLongest(rev: seq<byte>, i: nat, p: nat)
    requires p < i && i + 3 <= |rev| && MIN_DISP <= i - p <= MAX_DISP
    requires p in Chain(rev, rev[i .. i + 3], i)
    requires Repeats(rev, i, i - p, MIN_LEN)
    ensures var t, n := Choose(rev, i), Extend(rev, p, i, MIN_LEN);
            t.Copy? && n <= t.len && (n == t.len ==> t.disp <= i - p)
  {
    var chain := Chain(rev, rev[i .. i + 3], i);
    ChainCandidates(rev, i);
    ChainSound(rev, rev[i .. i + 3], i);
    var x :| 0 <= x < |chain| && chain[x] == p;
    ScanLongest(Lengths(rev, i), i, chain, |chain|, Match(0, 0), x);
  }

  /** The tokens of rev[i..]. */
  function TokensFrom(rev: seq<byte>, i: nat): seq<Token>
    requires i <= |rev|
    decreases |rev| - i
  {
    if i == |rev| then []
    else [Choose(rev, i)] + TokensFrom(rev, i + Span(Choose(rev, i)))
  }

  /** Token k is the greedy choice where it stands. */
  ghost predicate ChosenAt(rev: seq<byte>, ts: seq<Token>, k: nat)
    requires k < |ts|
  {
    Start(ts, k) < |rev| && ts[k] == Choose(rev, Start(ts, k))
  }

  /** A greedy parse of the whole of `rev`. */
  ghost predicate Greedy(rev: seq<byte>, ts: seq<Token>) {
    && AllInRange(ts) && Start(ts, |ts|) == |rev|
    && forall k | 0 <= k < |ts| :: ChosenAt(rev, ts, k)
  }

  function Tokens(rev: seq<byte>): (ts: seq<Token>)
    ensures Greedy(rev, ts)
  {
    TokensCover(rev, TokensFrom(rev, 0), 0, 0);
    TokensFrom(rev, 0)
  }

  lemma HeadAndTail(ts: seq<Token>, k: nat, t: Token, rest: seq<Token>)
    requires k <= |ts| && ts[k..] == [t] + rest
    ensures k < |ts| && ts[k] == t && ts[k + 1..] == rest
  {
    assert ts[k] == ts[k..][0] && ts[k + 1..] == ts[k..][1..];
  }

  lemma FirstToken(rev: seq<byte>, ts: seq<Token>, k: nat, i: nat)
    requires k <= |ts| && i == Start(ts, k) < |rev| && ts[k..] == TokensFrom(rev, i)
    ensures k < |ts| && ChosenAt(rev, ts, k) && InRange(ts[k])
    ensures Start(ts, k + 1) == i + Span(ts[k]) <= |rev| && ts[k + 1..] == TokensFrom(rev, i + Span(ts[k]))
  {
    var t := Choose(rev, i);
    HeadAndTail(ts, k, t, TokensFrom(rev, i + Span(t)));
  }

  lemma {:induction false} TokensCover(rev: seq<byte>, ts: seq<Token>, k: nat, i: nat)
    requires k <= |ts| && i == Start(ts, k) <= |rev| && ts[k..] == TokensFrom(rev, i)
    ensures forall j | k <= j < |ts| :: ChosenAt(rev, ts, j) && InRange(ts[j])
    ensures Start(ts, |ts|) == |rev|
    decreases |ts| - k
  {
    if i < |rev| {
      FirstToken(rev, ts, k, i);
      TokensCover(rev, ts, k + 1, i + Span(ts[k]));
    } else {
      assert |ts[k..]| == 0;
    }
  }

  /** There is a token k exactly while input is left. */
  lemma TokenOrEnd(rev: seq<byte>, ts: seq<Token>, k: nat)
    requires Greedy(rev, ts) && k <= |ts|
    ensures k < |ts| <==> Start(ts, k) < |rev|
    ensures k < |ts| ==> Start(ts, k + 1) <= |rev|
  {
    if k < |ts| { assert ChosenAt(rev, ts, k); }
  }

  // ---- the cut --------------------------------------------------------------

  /** Consumed minus written at the end of k tokens. */
  function Slack(ts: seq<Token>, k: nat): int
    requires k <= |ts|
  {
    Start(ts, k) - Off(ts, k)
  }

  /** The last token end, among the first n + 1, where the slack is largest. */
  function Cut(ts: seq<Token>, n: nat): (k: nat)
    requires n <= |ts|
    ensures k <= n
    ensures forall j | 0 <= j <= n :: Slack(ts, j) <= Slack(ts, k)
    ensures forall j | k < j <= n :: Slack(ts, j) < Slack(ts, k)
  {
    if n == 0 then 0
    else
      var k := Cut(ts, n - 1);
      if Slack(ts, n) >= Slack(ts, k) then n else k
  }

  // ---- the packed image -----------------------------------------------------

  function Reverse(s: seq<byte>): (r: seq<byte>)
    ensures |r| == |s| && forall x | 0 <= x < |s| :: r[x] == s[|s| - 1 - x]
  {
    seq(|s|, x requires 0 <= x < |s| => s[|s| - 1 - x])
  }

  function Fill(n: nat, b: byte): (r: seq<byte>)
    ensures |r| == n && forall x | 0 <= x < n :: r[x] == b
  {
    seq(n, _ => b)
  }

  /** The n low bytes of v, lowest first. */
  function LittleEndian(v: nat, n: nat): (r: seq<byte>)
    ensures |r| == n
  {
    if n == 0 then [] else [v % 256] + LittleEndian(v / 256, n - 1)
  }

  /** Everything the packed image is put together from. `body` is the plain head followed by
      the reversed token stream; `encLen` is the part the decoder takes for compressed. */
  datatype Layout = Layout(ts: seq<Token>, cut: nat, body: seq<byte>, footer: nat, encLen: nat)

  /** The footer and the filler that aligns the file to four bytes. */
  function FooterLen(bodyLen: int): (n: nat)
    ensures 8 <= n < 12 && (bodyLen + n) % 4 == 0
  {
    8 + (-bodyLen) % 4
  }

  function Plan(raw: seq<byte>): (l: Layout)
    ensures l.ts == Tokens(Reverse(raw)) && l.cut == Cut(l.ts, |l.ts|)
    ensures Start(l.ts, l.cut) <= |raw| && Off(l.ts, l.cut) <= Off(l.ts, |l.ts|)
    ensures l.body == raw[..|raw| - Start(l.ts, l.cut)] + Reverse(Compressed(l.ts, l.cut))
    ensures |l.body| == |raw| - Start(l.ts, l.cut) + Off(l.ts, l.cut)
    ensures l.footer == FooterLen(|l.body|) && l.encLen == Off(l.ts, l.cut) + l.footer
  {
    var rev := Reverse(raw);
    var ts := Tokens(rev);
    var k := Cut(ts, |ts|);
    StartGrows(ts, k, |ts|);
    OffMonotone(ts, k, |ts|);
    Assemble(raw, ts, k)
  }

  /** The part of the stream up to the cut. */
  function Compressed(ts: seq<Token>, k: nat): (s: seq<byte>)
    requires k <= |ts| && AllInRange(ts) && Off(ts, k) <= Off(ts, |ts|)
    ensures |s| == Off(ts, k)
  {
    Stream(ts, |ts|)[..Off(ts, k)]
  }

  function Assemble(raw: seq<byte>, ts: seq<Token>, k: nat): (l: Layout)
    requires k <= |ts| && AllInRange(ts) && Start(ts, k) <= |raw| && Off(ts, k) <= Off(ts, |ts|)
    ensures l.ts == ts && l.cut == k
    ensures l.body == raw[..|raw| - Start(ts, k)] + Reverse(Compressed(ts, k))
    ensures l.footer == FooterLen(|l.body|) && l.encLen == Off(ts, k) + l.footer
  {
    var comp := Reverse(Compressed(ts, k));
    var body := raw[..|raw| - Start(ts, k)] + comp;
    var footer := FooterLen(|body|);
    Layout(ts, k, body, footer, |comp| + footer)
  }

  datatype Result = Packed(data: seq<byte>) | Incompressible | FieldOverflow

  /** Body, padding and the three length fields of the footer. */
  function Image(l: Layout, inc: nat): (data: seq<byte>)
    requires 8 <= l.footer < 12
    ensures |data| == |l.body| + l.footer
  {
    l.body + Fill(l.footer - 8, 0xFF) + LittleEndian(l.encLen, 4)[..3] + [l.footer] + LittleEndian(inc, 4)
  }

  /** The packing of the 32-bit fields fails first; a file no shorter than its input is
      refused last. */
  function Finished(l: Layout, size: nat): Result
    requires 8 <= l.footer < 12
  {
    var total := |l.body| + l.footer;
    if l.encLen >= 0x1_0000_0000 || total > size || size - total >= 0x1_0000_0000 then FieldOverflow
    else if total == size then Incompressible
    else Packed(Image(l, size - total))
  }

  function Encode(raw: seq<byte>): Result { Finished(Plan(raw), |raw|) }
}
