/** The codec's promises: what `main` of tools/make_dsi_font.py asserts of one file at a time,
    for every input. */
module BlzProofs {
  import opened Basics
  import opened BlzFormat
  import opened BlzEncoder
  import opened BlzDecoder

  /** A packed file's token stream: `data` holds the bytes of `s`, backwards, below `body`,
      and its first k tokens are those of `ts`, standing for the front of `rev`. */
  datatype Job = Job(rev: seq<byte>, ts: seq<Token>, k: nat, s: seq<byte>, data: seq<byte>, body: nat)

  ghost predicate Holds(jb: Job) {
    && AllInRange(jb.ts) && jb.k <= |jb.ts| && Reads(jb.s, jb.ts, jb.k)
    && (forall j | 0 <= j < jb.k :: GenuineAt(jb.rev, jb.ts, j))
    && Off(jb.ts, jb.k) <= jb.body <= |jb.data| && Off(jb.ts, jb.k) <= |jb.s|
    && Mirrors(jb.data, jb.body, jb.s, Off(jb.ts, jb.k))
  }

  ghost predicate Mirrors(data: seq<byte>, body: nat, s: seq<byte>, n: nat)
    requires n <= body <= |data| && n <= |s|
  {
    forall q | 0 <= q < n :: data[body - 1 - q] == s[q]
  }

  /** Output from the write position up is the reversed data. */
  ghost predicate Filled(rev: seq<byte>, buf: seq<byte>, r: int) {
    r >= 0 && |buf| == |rev| && forall y | r <= y < |buf| :: buf[y] == rev[|rev| - 1 - y]
  }

  /** Between two tokens: the next lane number, the read position, and the flag byte the lane
      tests, already loaded or next to be read. */
  ghost predicate Ready(data: seq<byte>, d: State, lane: nat, flags: byte)
    requires lane < 8
  {
    if lane == 0 then d.mask < 2 && 0 < d.pak <= |data| && data[d.pak - 1] == flags
    else d.mask == Mask(lane - 1) && d.flags == flags
  }

  lemma ReadyLane(data: seq<byte>, d: State, lane: nat, flags: byte)
    requires lane < 8 && Ready(data, d, lane, flags)
    ensures NextLane(data, d.pak, d.mask, d.flags)
         == Some(Lane(if lane == 0 then d.pak - 1 else d.pak, Mask(lane), flags))
  {
    TopMask();
    if lane > 0 { NextMask(lane - 1); }
  }

  /** Token t's bytes lie just below position pak. */
  ghost predicate BelowPak(data: seq<byte>, pak: int, t: Token)
    requires InRange(t)
  {
    && Size(t) <= pak <= |data|
    && data[pak - 1] == TokenBytes(t)[0]
    && (t.Copy? ==> data[pak - 2] == TokenBytes(t)[1])
  }

  lemma WordOf(data: seq<byte>, pak: int, t: Token)
    requires InRange(t) && t.Copy? && BelowPak(data, pak, t)
    ensures CopyLen(CopyWord(data, pak)) == t.len && CopyDisp(CopyWord(data, pak)) == t.disp
  {
  }

  /** What the decoder meets at token j, in plain numbers: its flag byte ... */
  lemma FlagMet(jb: Job, j: nat)
    requires Holds(jb) && j < jb.k
    ensures FlagAt(jb.ts, j) < |jb.s| && FlagAt(jb.ts, j) < jb.body <= |jb.data|
    ensures jb.data[jb.body - 1 - FlagAt(jb.ts, j)] == jb.s[FlagAt(jb.ts, j)]
    ensures Test(jb.s[FlagAt(jb.ts, j)], Mask(j % 8)) == jb.ts[j].Copy?
  {
    FlagBelow(jb.ts, j, jb.k);
    assert TokenAt(jb.s, jb.ts, j);
    MirrorByte(jb.data, jb.body, jb.s, Off(jb.ts, jb.k), FlagAt(jb.ts, j));
  }

  /** ... and its own bytes. */
  lemma BytesMet(jb: Job, j: nat)
    requires Holds(jb) && j < jb.k
    ensures BelowPak(jb.data, jb.body - BytesAt(jb.ts, j), jb.ts[j])
  {
    OffGrows(jb.ts, j, jb.k);
    assert TokenAt(jb.s, jb.ts, j);
    MirrorBytes(jb.data, jb.body, jb.s, Off(jb.ts, jb.k), BytesAt(jb.ts, j), jb.ts[j]);
  }

  lemma MirrorByte(data: seq<byte>, body: nat, s: seq<byte>, n: nat, q: nat)
    requires q < n <= body <= |data| && n <= |s| && Mirrors(data, body, s, n)
    ensures data[body - 1 - q] == s[q]
  {
  }

  lemma MirrorBytes(data: seq<byte>, body: nat, s: seq<byte>, n: nat, a: nat, t: Token)
    requires n <= body <= |data| && n <= |s| && Mirrors(data, body, s, n)
    requires InRange(t) && a + Size(t) <= n && s[a .. a + Size(t)] == TokenBytes(t)
    ensures BelowPak(data, body - a, t)
  {
    assert s[a] == s[a .. a + Size(t)][0];
    if t.Copy? { assert s[a + 1] == s[a .. a + 2][1]; }
  }

  /** A clipped copy of a genuine token extends the filled part, overlap included. */
  lemma CopyFills(rev: seq<byte>, buf: seq<byte>, i: nat, disp: nat, len: nat, ln: nat)
    requires i + len <= |rev| && 0 < disp <= i && ln <= len && Repeats(rev, i, disp, len)
    requires Filled(rev, buf, |rev| - i)
    ensures Filled(rev, CopyDown(buf, |rev| - i, disp, ln), |rev| - i - ln)
  {
    var out := CopyDown(buf, |rev| - i, disp, ln);
    var n: nat := 0;
    while n < ln
      invariant n <= ln
      invariant Filled(rev, out, |rev| - i - n)
    {
      var y := |rev| - i - n - 1;
      assert out[y] == out[y + disp] == rev[|rev| - 1 - (y + disp)];
      assert Echo(rev, i + n, disp);
      n := n + 1;
    }
  }

  function Max(a: int, b: int): int { if a > b then a else b }

  /** One token, given what is met: the output grows by what the token stands for, or to the
      start of the plain head if that comes first. */
  lemma TokenStep(data: seq<byte>, rEnd: nat, d: State, lane: nat, flags: byte, t: Token, rev: seq<byte>)
    requires lane < 8 && InRange(t) && Ready(data, d, lane, flags)
    requires Test(flags, Mask(lane)) == t.Copy?
    requires BelowPak(data, if lane == 0 then d.pak - 1 else d.pak, t)
    requires rEnd < d.r <= |rev| && Filled(rev, d.buf, d.r) && Genuine(rev, |rev| - d.r, t)
    ensures Step(data, rEnd, d).Some?
    ensures var n := Step(data, rEnd, d).value;
            && n.pak == d.pak - (if lane == 0 then 1 else 0) - Size(t)
            && n.r == Max(rEnd, d.r - Span(t))
            && Filled(rev, n.buf, n.r)
            && n.mask == Mask(lane) && n.flags == flags
            && n.buf[..rEnd] == d.buf[..rEnd]
  {
    ReadyLane(data, d, lane, flags);
    var l := Lane(if lane == 0 then d.pak - 1 else d.pak, Mask(lane), flags);
    if t.Copy? {
      WordOf(data, l.pak, t);
      CopyStep(data, rEnd, d, l, t, rev);
    }
  }

  lemma CopyStep(data: seq<byte>, rEnd: nat, d: State, l: Lane, t: Token, rev: seq<byte>)
    requires t.Copy? && 2 <= l.pak <= |data|
    requires CopyLen(CopyWord(data, l.pak)) == t.len && CopyDisp(CopyWord(data, l.pak)) == t.disp
    requires rEnd < d.r <= |rev| && Filled(rev, d.buf, d.r) && Genuine(rev, |rev| - d.r, t)
    ensures StepCopy(data, rEnd, d, l).Some?
    ensures var n := StepCopy(data, rEnd, d, l).value;
            n.pak == l.pak - 2 && n.r == Max(rEnd, d.r - t.len) && Filled(rev, n.buf, n.r)
            && n.buf[..rEnd] == d.buf[..rEnd]
  {
    CopyFills(rev, d.buf, |rev| - d.r, t.disp, t.len, Min(t.len, d.r - rEnd));
  }

  /** The decoder has just finished token j - 1. */
  ghost predicate At(jb: Job, j: nat, d: State)
    requires j <= |jb.ts|
  {
    && d.pak == jb.body - Off(jb.ts, j)
    && d.r == |jb.rev| - Start(jb.ts, j)
    && Filled(jb.rev, d.buf, d.r)
    && if j % 8 == 0 then d.mask < 2
       else d.mask == Mask(j % 8 - 1) && FlagAt(jb.ts, j) < |jb.s| && d.flags == jb.s[FlagAt(jb.ts, j)]
  }

  lemma StepAt(jb: Job, rEnd: nat, j: nat, d: State)
    requires Holds(jb) && j < jb.k && At(jb, j, d) && rEnd < d.r
    ensures Step(jb.data, rEnd, d).Some?
    ensures var n := Step(jb.data, rEnd, d).value;
            && n.pak == jb.body - Off(jb.ts, j + 1)
            && n.r == Max(rEnd, |jb.rev| - Start(jb.ts, j + 1))
            && Filled(jb.rev, n.buf, n.r)
            && n.buf[..rEnd] == d.buf[..rEnd]
            && (rEnd <= |jb.rev| - Start(jb.ts, j + 1) ==> At(jb, j + 1, n))
  {
    FlagMet(jb, j);
    BytesMet(jb, j);
    var flags := jb.s[FlagAt(jb.ts, j)];
    assert GenuineAt(jb.rev, jb.ts, j);
    TokenStep(jb.data, rEnd, d, j % 8, flags, jb.ts[j], jb.rev);
    NextLaneOf(jb.ts, j);
  }

  /** From any token boundary the decoder fills the output down to the head and stops. */
  lemma {:induction false} RunFills(jb: Job, rEnd: nat, j: nat, d: State)
    requires Holds(jb) && j <= jb.k && At(jb, j, d)
    requires |jb.rev| - Start(jb.ts, jb.k) <= rEnd <= d.r
    ensures Run(jb.data, rEnd, d).Some?
    ensures Filled(jb.rev, Run(jb.data, rEnd, d).value, rEnd)
    ensures Run(jb.data, rEnd, d).value[..rEnd] == d.buf[..rEnd]
    decreases jb.k - j
  {
    if rEnd < d.r {
      assert j < jb.k;
      StepAt(jb, rEnd, j, d);
      var n := Step(jb.data, rEnd, d).value;
      assert Run(jb.data, rEnd, d) == Run(jb.data, rEnd, n);
      if rEnd <= |jb.rev| - Start(jb.ts, j + 1) {
        RunFills(jb, rEnd, j + 1, n);
      }
    }
  }

  /** The compressed part is cut where the slack (consumed minus written) is at its largest. */
  ghost predicate CutBest(jb: Job)
    requires jb.k <= |jb.ts|
  {
    && jb.body == |jb.rev| - Start(jb.ts, jb.k) + Off(jb.ts, jb.k)
    && forall m | 0 <= m <= jb.k :: Slack(jb.ts, m) <= Slack(jb.ts, jb.k)
  }

  /** Up to the cut the write position stays at or above the read position. */
  lemma {:induction false} CheckPasses(jb: Job, rEnd: nat, j: nat, d: State)
    requires Holds(jb) && CutBest(jb) && j <= jb.k && At(jb, j, d)
    requires |jb.rev| - Start(jb.ts, jb.k) <= rEnd <= d.r
    ensures CheckRun(jb.data, rEnd, d.pak, d.r, d.mask, d.flags) == Some(true)
    decreases jb.k - j
  {
    if rEnd < d.r {
      assert j < jb.k;
      CheckStep(jb, rEnd, j, d);
      if rEnd <= |jb.rev| - Start(jb.ts, j + 1) {
        CheckPasses(jb, rEnd, j + 1, Step(jb.data, rEnd, d).value);
      }
    }
  }

  /** One turn of the check: on to the next token's end, or to the head and done. */
  lemma CheckStep(jb: Job, rEnd: nat, j: nat, d: State)
    requires Holds(jb) && CutBest(jb) && j < jb.k && At(jb, j, d) && rEnd < d.r
    ensures Step(jb.data, rEnd, d).Some?
    ensures var n, left := Step(jb.data, rEnd, d).value, |jb.rev| - Start(jb.ts, j + 1);
            && (rEnd <= left ==> At(jb, j + 1, n) && n.r == left)
            && CheckRun(jb.data, rEnd, d.pak, d.r, d.mask, d.flags) ==
               if rEnd <= left then CheckRun(jb.data, rEnd, n.pak, n.r, n.mask, n.flags) else Some(true)
  {
    StepAt(jb, rEnd, j, d);
    WriteAboveRead(jb, j + 1);
    CheckFollows(jb.data, rEnd, d);
  }

  lemma WriteAboveRead(jb: Job, j: nat)
    requires Holds(jb) && CutBest(jb) && j <= jb.k
    ensures jb.body - Off(jb.ts, j) <= |jb.rev| - Start(jb.ts, j)
  {
    assert Slack(jb.ts, j) <= Slack(jb.ts, jb.k);
  }

  // ---- whole files ----------------------------------------------------------

  lemma {:induction false} LittleEndianValue(v: nat)
    requires v < 0x1_0000_0000
    ensures Word32(LittleEndian(v, 4), 0) == v
    ensures Word24(LittleEndian(v, 4), 0) == v % 0x100_0000
  {
    var e := LittleEndian(v, 4);
    assert e[1..] == LittleEndian(v / 0x100, 3);
    assert e[2..] == e[1..][1..] == LittleEndian(v / 0x100 / 0x100, 2);
    assert e[3..] == e[2..][1..] == LittleEndian(v / 0x100 / 0x100 / 0x100, 1);
  }

  /** The footer reads back, but for the top byte of the compressed length. */
  lemma FooterReads(l: Layout, inc: nat)
    requires 8 <= l.footer < 12 && l.encLen < 0x1_0000_0000 && inc < 0x1_0000_0000
    ensures ReadHeader(Image(l, inc)) == Header(inc, l.footer, l.encLen % 0x100_0000)
    ensures Image(l, inc)[..|l.body|] == l.body
  {
    var data := Image(l, inc);
    var n := |data|;
    assert data[n - 4..] == LittleEndian(inc, 4);
    assert data[n - 8 .. n - 5] == LittleEndian(l.encLen, 4)[..3];
    LittleEndianValue(inc);
    LittleEndianValue(l.encLen);
    forall x | 0 <= x < 4 ensures data[n - 4 + x] == LittleEndian(inc, 4)[x] {
      assert data[n - 4..][x] == data[n - 4 + x];
    }
    forall x | 0 <= x < 3 ensures data[n - 8 + x] == LittleEndian(l.encLen, 4)[x] {
      assert data[n - 8 .. n - 5][x] == data[n - 8 + x];
    }
  }

  /** `data` is the image of layout l, and l is a layout of `raw`. */
  ghost predicate Packs(l: Layout, raw: seq<byte>, data: seq<byte>) {
    && AllInRange(l.ts) && l.cut <= |l.ts| && Off(l.ts, l.cut) <= Off(l.ts, |l.ts|)
    && 8 <= l.footer < 12
    && Start(l.ts, l.cut) <= |raw|
    && l.body == raw[..|raw| - Start(l.ts, l.cut)] + Reverse(Compressed(l.ts, l.cut))
    && l.encLen == Off(l.ts, l.cut) + l.footer < 0x1_0000_0000
    && |data| == |l.body| + l.footer < |raw| < |data| + 0x1_0000_0000
    && data == Image(l, |raw| - |data|)
  }

  lemma EncodePacks(raw: seq<byte>, data: seq<byte>)
    requires Encode(raw) == Packed(data)
    ensures Packs(Plan(raw), raw, data)
  {
    FinishedPacks(Plan(raw), raw, data);
  }

  lemma FinishedPacks(l: Layout, raw: seq<byte>, data: seq<byte>)
    requires AllInRange(l.ts) && l.cut <= |l.ts| && Off(l.ts, l.cut) <= Off(l.ts, |l.ts|) && Start(l.ts, l.cut) <= |raw|
    requires l.body == raw[..|raw| - Start(l.ts, l.cut)] + Reverse(Compressed(l.ts, l.cut))
    requires 8 <= l.footer < 12 && l.encLen == Off(l.ts, l.cut) + l.footer
    requires Finished(l, |raw|) == Packed(data)
    ensures Packs(l, raw, data)
  {
  }

  /** What the encoder has produced, as the decoder will read it. */
  function JobOf(l: Layout, raw: seq<byte>, data: seq<byte>): Job
    requires AllInRange(l.ts) && l.cut <= |l.ts| && Off(l.ts, l.cut) <= Off(l.ts, |l.ts|)
  {
    Job(Reverse(raw), l.ts, l.cut, Compressed(l.ts, l.cut), data, |l.body|)
  }

  lemma EncodedJob(l: Layout, raw: seq<byte>, data: seq<byte>)
    requires l == Plan(raw) && Packs(l, raw, data)
    ensures Holds(JobOf(l, raw, data))
  {
    var jb := JobOf(l, raw, data);
    CompressedReads(l.ts, l.cut);
    FooterReads(l, |raw| - |data|);
    BodyMirrors(data, raw[..|raw| - Start(l.ts, l.cut)], jb.s);
    forall j | 0 <= j < jb.k ensures GenuineAt(jb.rev, jb.ts, j) {
      assert ChosenAt(jb.rev, l.ts, j);
    }
  }

  lemma CompressedReads(ts: seq<Token>, k: nat)
    requires AllInRange(ts) && k <= |ts| && Off(ts, k) <= Off(ts, |ts|)
    ensures Reads(Compressed(ts, k), ts, k)
  {
    StreamReads(ts, |ts|);
    ReadsPrefix(Stream(ts, |ts|), Compressed(ts, k), ts, k);
  }

  lemma BodyMirrors(data: seq<byte>, head: seq<byte>, s: seq<byte>)
    requires |head| + |s| <= |data| && data[..|head| + |s|] == head + Reverse(s)
    ensures Mirrors(data, |head| + |s|, s, |s|)
  {
    var body := |head| + |s|;
    forall q | 0 <= q < |s| ensures data[body - 1 - q] == s[q] {
      assert data[body - 1 - q] == data[..body][body - 1 - q] == Reverse(s)[|s| - 1 - q];
    }
  }

  /** Where the decoder's plain head ends: at the encoder's cut if the compressed length fits
      the footer's 24 bits, above it otherwise. */
  function HeadEnd(l: Layout, data: seq<byte>): int { |data| - l.encLen % 0x100_0000 }

  lemma HeadEndBounds(l: Layout, raw: seq<byte>, data: seq<byte>)
    requires Packs(l, raw, data)
    ensures |raw| - Start(l.ts, l.cut) <= HeadEnd(l, data) <= |data|
    ensures l.encLen < 0x100_0000 ==> HeadEnd(l, data) == |raw| - Start(l.ts, l.cut)
  {
    var enc := l.encLen;
    assert enc % 0x100_0000 <= enc;
    assert |data| - enc == |raw| - Start(l.ts, l.cut);
  }

  function FirstState(l: Layout, raw: seq<byte>, data: seq<byte>): State
    requires 0 <= HeadEnd(l, data) <= |data| < |raw|
  {
    var e := HeadEnd(l, data);
    State(|l.body|, |raw|, 0, 0, data[..e] + Zeros(|raw| - e))
  }

  /** The header the decoder finds in an encoder's file. */
  function HeaderOf(l: Layout, raw: seq<byte>, data: seq<byte>): Header
    requires |data| <= |raw|
  {
    Header(|raw| - |data|, l.footer, l.encLen % 0x100_0000)
  }

  lemma HeaderFound(l: Layout, raw: seq<byte>, data: seq<byte>)
    requires Packs(l, raw, data)
    ensures Decode(data) == DecodeWith(data, HeaderOf(l, raw, data))
    ensures CheckInPlace(data) == CheckWith(data, HeaderOf(l, raw, data))
  {
    FooterReads(l, |raw| - |data|);
  }

  lemma DecodeRuns(l: Layout, raw: seq<byte>, data: seq<byte>)
    requires |data| == |l.body| + l.footer < |raw| && 0 <= HeadEnd(l, data) <= |data|
    ensures DecodeWith(data, HeaderOf(l, raw, data)) == Run(data, HeadEnd(l, data), FirstState(l, raw, data))
    ensures CheckWith(data, HeaderOf(l, raw, data)) == CheckRun(data, HeadEnd(l, data), |l.body|, |raw|, 0, 0)
  {
    DecodeRunsFrom(data, HeaderOf(l, raw, data), HeadEnd(l, data), |l.body|, |raw|);
  }

  lemma DecodeRunsFrom(data: seq<byte>, h: Header, e: int, body: nat, size: nat)
    requires h.inc > 0 && size == |data| + h.inc && e == |data| - h.enc && body == |data| - h.hdr && 0 <= e <= |data|
    ensures DecodeWith(data, h) == Run(data, e, State(body, size, 0, 0, data[..e] + Zeros(size - e)))
    ensures CheckWith(data, h) == CheckRun(data, e, body, size, 0, 0)
  {
  }

  /** Decoding what the encoder wrote: the packed file's own bytes up to where the footer says
      the head ends, the input's bytes from there on. */
  lemma DecodeEncoded(raw: seq<byte>, data: seq<byte>)
    requires Encode(raw) == Packed(data)
    ensures 0 <= HeadEnd(Plan(raw), data) <= |data| < |raw|
    ensures var e := HeadEnd(Plan(raw), data); Decode(data) == Some(data[..e] + raw[e..])
  {
    EncodePacks(raw, data);
    DecodePacked(Plan(raw), raw, data);
  }

  lemma DecodePacked(l: Layout, raw: seq<byte>, data: seq<byte>)
    requires l == Plan(raw) && Packs(l, raw, data)
    ensures 0 <= HeadEnd(l, data) <= |data| < |raw|
    ensures var e := HeadEnd(l, data); Decode(data) == Some(data[..e] + raw[e..])
  {
    var e := HeadEnd(l, data);
    HeadEndBounds(l, raw, data);
    EncodedJob(l, raw, data);
    HeaderFound(l, raw, data);
    DecodeRuns(l, raw, data);
    assert At(JobOf(l, raw, data), 0, FirstState(l, raw, data));
    RunFills(JobOf(l, raw, data), e, 0, FirstState(l, raw, data));
    FilledIsSuffix(raw, Decode(data).value, data[..e]);
  }

  lemma FilledIsSuffix(raw: seq<byte>, out: seq<byte>, head: seq<byte>)
    requires |head| <= |raw| && Filled(Reverse(raw), out, |head|) && out[..|head|] == head
    ensures out == head + raw[|head|..]
  {
    assert out[|head|..] == raw[|head|..];
    assert out == out[..|head|] + out[|head|..];
  }

  /** The round trip, whenever the compressed length fits its 24 bits. */
  lemma RoundTrip(raw: seq<byte>, data: seq<byte>)
    requires Encode(raw) == Packed(data) && Plan(raw).encLen < 0x100_0000
    ensures Decode(data) == Some(raw)
  {
    EncodePacks(raw, data);
    DecodeEncoded(raw, data);
    HeadIsPlain(Plan(raw), raw, data);
  }

  lemma HeadIsPlain(l: Layout, raw: seq<byte>, data: seq<byte>)
    requires Packs(l, raw, data) && l.encLen < 0x100_0000
    ensures 0 <= HeadEnd(l, data) <= |data|
    ensures var e := HeadEnd(l, data); data[..e] + raw[e..] == raw
  {
    HeadEndBounds(l, raw, data);
    FooterReads(l, |raw| - |data|);
    var e := HeadEnd(l, data);
    assert data[..e] == data[..|l.body|][..e] == raw[..e];
  }

  /** ... so for every input of up to 16 MB that the encoder accepts. */
  lemma RoundTripSmall(raw: seq<byte>, data: seq<byte>)
    requires |raw| <= 0x100_0000 && Encode(raw) == Packed(data)
    ensures Decode(data) == Some(raw)
  {
    EncodePacks(raw, data);
    RoundTrip(raw, data);
  }

  /** Past that, the truncated field makes the decoder keep compressed bytes as if they were
      plain: the trip is good only if they happen to be the input's. */
  lemma RoundTripExactly(raw: seq<byte>, data: seq<byte>)
    requires Encode(raw) == Packed(data)
    ensures 0 <= HeadEnd(Plan(raw), data) <= |data| < |raw|
    ensures var e := HeadEnd(Plan(raw), data); Decode(data) == Some(raw) <==> data[..e] == raw[..e]
  {
    DecodeEncoded(raw, data);
    var e := HeadEnd(Plan(raw), data);
    var out := data[..e] + raw[e..];
    assert out[..e] == data[..e];
    if data[..e] == raw[..e] {
      assert raw == raw[..e] + raw[e..];
    }
  }

  /** Every encoder output passes the in-place check ... */
  lemma EncodedChecks(raw: seq<byte>, data: seq<byte>)
    requires Encode(raw) == Packed(data)
    ensures CheckInPlace(data) == Some(true)
  {
    EncodePacks(raw, data);
    var l := Plan(raw);
    HeadEndBounds(l, raw, data);
    EncodedJob(l, raw, data);
    HeaderFound(l, raw, data);
    DecodeRuns(l, raw, data);
    assert At(JobOf(l, raw, data), 0, FirstState(l, raw, data));
    CheckPasses(JobOf(l, raw, data), HeadEnd(l, data), 0, FirstState(l, raw, data));
  }

  /** ... and so decompresses to the input in one buffer. */
  lemma InPlaceRoundTrip(raw: seq<byte>, data: seq<byte>)
    requires Encode(raw) == Packed(data) && Plan(raw).encLen < 0x100_0000
    ensures DecodeInPlace(data) == Some(raw)
  {
    EncodedChecks(raw, data);
    RoundTrip(raw, data);
    CheckIsSound(data);
  }
}
