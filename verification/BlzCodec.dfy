/** The three codec routines of tools/make_dsi_font.py as they are written: loops over a growing
    stream, a dictionary of chains, and an output buffer filled from its end. */
module BlzCodec {
  import opened Basics
  import opened BlzFormat
  import opened BlzEncoder
  import opened BlzDecoder

  // ---- blz_encode -----------------------------------------------------------

  type Heads = map<seq<byte>, seq<nat>>

  function Lookup(heads: Heads, key: seq<byte>): seq<nat> {
    if key in heads then heads[key] else []
  }

  /** The dictionary after the positions below i have been registered in turn. */
  function HeadsAt(rev: seq<byte>, i: nat): Heads
    requires i <= |rev|
  {
    if i == 0 then map[]
    else
      var h := HeadsAt(rev, i - 1);
      if i + 2 <= |rev| then h[rev[i - 1 .. i + 2] := Push(Lookup(h, rev[i - 1 .. i + 2]), i - 1)] else h
  }

  /** Its entries are the chains. */
  lemma {:induction false} LookupChain(rev: seq<byte>, key: seq<byte>, i: nat)
    requires i <= |rev|
    ensures Lookup(HeadsAt(rev, i), key) == Chain(rev, key, i)
  {
    if i > 0 { LookupChain(rev, key, i - 1); }
  }

  method Register(heads: Heads, rev: seq<byte>, i: nat, step: nat) returns (h: Heads, k: nat)
    requires i + step <= |rev| && heads == HeadsAt(rev, i)
    ensures k == i + step && h == HeadsAt(rev, k)
  {
    h, k := heads, i;
    while k < i + step
      invariant k <= i + step && h == HeadsAt(rev, k)
    {
      if k + 3 <= |rev| {
        var key := rev[k .. k + 3];
        var lst := Lookup(h, key) + [k];
        if |lst| > CHAIN {
          lst := lst[1..];
        }
        h := h[key := lst];
      }
      k := k + 1;
    }
  }

  method MatchLength(rev: seq<byte>, p: nat, i: nat) returns (ln: nat)
    requires p < i && i + MIN_LEN <= |rev|
    ensures ln == Extend(rev, p, i, MIN_LEN)
  {
    ln := MIN_LEN;
    while ln < MAX_LEN && i + ln < |rev| && rev[p + ln] == rev[i + ln]
      invariant MIN_LEN <= ln <= MAX_LEN && i + ln <= |rev|
      invariant Extend(rev, p, i, ln) == Extend(rev, p, i, MIN_LEN)
      decreases MAX_LEN - ln
    {
      ln := ln + 1;
    }
  }

  /** `lens` gives the match length at every earlier position. */
  ghost predicate LengthsOf(rev: seq<byte>, i: nat, lens: nat -> nat) {
    i + MIN_LEN <= |rev| && forall p: nat :: LengthAt(rev, i, lens, p)
  }

  ghost predicate LengthAt(rev: seq<byte>, i: nat, lens: nat -> nat, p: nat)
    requires i + MIN_LEN <= |rev|
  {
    p < i ==> lens(p) == Extend(rev, p, i, MIN_LEN)
  }

  ghost predicate Earlier(chain: seq<nat>, i: nat) { forall x | 0 <= x < |chain| :: chain[x] < i }

  /** One candidate within reach: skipped when too near, kept when longer than the best. */
  method Consider(rev: seq<byte>, i: nat, chain: seq<nat>, m: nat, disp: nat, best: Match, ghost lens: nat -> nat)
    returns (b: Match)
    requires 0 < m <= |chain| && LengthsOf(rev, i, lens) && disp == i - chain[m - 1] <= MAX_DISP && chain[m - 1] < i
    ensures b == Considered(lens, i, chain, m, best) && (best.len < MAX_LEN ==> b.len <= MAX_LEN)
  {
    b := best;
    if disp >= MIN_DISP {
      var ln := MatchLength(rev, chain[m - 1], i);
      assert LengthAt(rev, i, lens, chain[m - 1]);
      if ln > best.len {
        b := Match(ln, disp);
      }
    }
  }

  /** The chain loop. */
  method BestMatch(rev: seq<byte>, i: nat, chain: seq<nat>, ghost lens: nat -> nat) returns (best: Match)
    requires LengthsOf(rev, i, lens) && Earlier(chain, i)
    ensures best == Scan(lens, i, chain, |chain|, Match(0, 0))
  {
    best := Match(0, 0);
    var m := |chain|;
    ghost var goal := Scan(lens, i, chain, m, best);
    while m > 0
      invariant 0 <= m <= |chain| && best.len < MAX_LEN && Scan(lens, i, chain, m, best) == goal
    {
      var disp := i - chain[m - 1];
      if disp > MAX_DISP {
        break;
      }
      best := Consider(rev, i, chain, m, disp, best, lens);
      if best.len == MAX_LEN {
        break;
      }
      m := m - 1;
    }
  }

  /** The match for input position i, if its next three bytes are there to be looked up. */
  method FindMatch(rev: seq<byte>, i: nat, heads: Heads, ghost ts: seq<Token>, ghost k: nat) returns (best: Match)
    requires Greedy(rev, ts) && k < |ts| && i == Start(ts, k) < |rev| && heads == HeadsAt(rev, i)
    ensures ts[k] == if best.len >= MIN_LEN then Copy(best.len, best.disp) else Lit(rev[i])
  {
    assert ChosenAt(rev, ts, k);
    best := Match(0, 0);
    if i + 3 <= |rev| {
      LookupChain(rev, rev[i .. i + 3], i);
      ChainSound(rev, rev[i .. i + 3], i);
      best := BestMatch(rev, i, Lookup(heads, rev[i .. i + 3]), Lengths(rev, i));
    }
  }

  /** The writer between two tokens: a new group needs a new flag byte. */
  ghost predicate Writing(ts: seq<Token>, k: nat, flagAt: nat, bit: nat)
    requires k <= |ts|
  {
    if k % 8 == 0 then bit == 0 else bit == Mask(k % 8) && flagAt == FlagAt(ts, k)
  }

  lemma WritingNext(ts: seq<Token>, k: nat)
    requires k < |ts|
    ensures Writing(ts, k + 1, FlagAt(ts, k), Mask(k % 8) / 2)
  {
    NextLaneOf(ts, k);
    NextMask(k % 8);
  }

  /** A full group needs a new flag byte. */
  method OpenGroup(stream: seq<byte>, flagAt: nat, bit: nat, ghost ts: seq<Token>, ghost k: nat)
    returns (s: seq<byte>, at: nat, b: nat)
    requires AllInRange(ts) && k < |ts|
    requires stream == Stream(ts, k) && Writing(ts, k, flagAt, bit)
    ensures s == Opened(ts, k) && at == FlagAt(ts, k) && b == Mask(k % 8)
  {
    s, at, b := stream, flagAt, bit;
    if b == 0 {
      at := |s|;
      s := s + [0];
      b := 0x80;
      TopMask();
    }
  }

  /** Append one token: its flag bit if it is a copy, then its bytes. */
  method Emit(stream: seq<byte>, at: nat, bit: nat, best: Match, lit: byte, ghost lane: nat, ghost t: Token)
    returns (s: seq<byte>)
    requires at < |stream| && lane < 8 && bit == Mask(lane) && InRange(t)
    requires t == if best.len >= MIN_LEN then Copy(best.len, best.disp) else Lit(lit)
    ensures s == Stamped(stream, at, lane, t.Copy?) + TokenBytes(t)
  {
    s := stream;
    if best.len >= MIN_LEN {
      SetBitFits(s[at], lane);
      s := s[at := Or(s[at], bit)];
      WordFits(best.len, best.disp);
      var v := Word(best.len, best.disp);
      s := s + [v / 0x100, v % 0x100];
    } else {
      s := s + [lit];
    }
  }

  /** Input consumed and output written at a token end. */
  datatype Mark = Mark(inp: nat, outp: nat)

  function Marks(ts: seq<Token>, n: nat): (m: seq<Mark>)
    requires n <= |ts|
    ensures |m| == n + 1 && m[n] == Mark(Start(ts, n), Off(ts, n))
  {
    (if n == 0 then [] else Marks(ts, n - 1)) + [Mark(Start(ts, n), Off(ts, n))]
  }

  lemma NextMark(ts: seq<Token>, k: nat)
    requires k < |ts|
    ensures Start(ts, k + 1) == Start(ts, k) + Span(ts[k])
    ensures Marks(ts, k + 1) == Marks(ts, k) + [Mark(Start(ts, k + 1), Off(ts, k + 1))]
  {
  }

  /** The encoder's loop, over the greedy parse it is about to find. */
  method EncodeTokens(rev: seq<byte>, ghost ts: seq<Token>) returns (stream: seq<byte>, marks: seq<Mark>)
    requires Greedy(rev, ts)
    ensures stream == Stream(ts, |ts|) && marks == Marks(ts, |ts|)
  {
    ghost var k: nat := 0;
    var heads: Heads := map[];
    var i: nat, flagAt: nat, bit: nat := 0, 0, 0;
    stream, marks := [], [Mark(0, 0)];
    while i < |rev|
      invariant k <= |ts| && i == Start(ts, k) <= |rev|
      invariant heads == HeadsAt(rev, i)
      invariant stream == Stream(ts, k) && Writing(ts, k, flagAt, bit)
      invariant marks == Marks(ts, k)
      decreases |rev| - i
    {
      TokenOrEnd(rev, ts, k);
      var best := FindMatch(rev, i, heads, ts, k);
      stream, flagAt, bit := OpenGroup(stream, flagAt, bit, ts, k);
      StreamNext(ts, k);
      stream := Emit(stream, flagAt, bit, best, rev[i], k % 8, ts[k]);
      WritingNext(ts, k);
      bit := bit / 2;
      var step := if best.len >= MIN_LEN then best.len else 1;
      heads, i := Register(heads, rev, i, step);
      NextMark(ts, k);
      marks := marks + [Mark(i, |stream|)];
      k := k + 1;
    }
    TokenOrEnd(rev, ts, k);
  }

  /** The token stream and the marks at its token ends. */
  method EncodeStream(rev: seq<byte>) returns (stream: seq<byte>, marks: seq<Mark>)
    ensures stream == Stream(Tokens(rev), |Tokens(rev)|)
    ensures marks == Marks(Tokens(rev), |Tokens(rev)|)
  {
    stream, marks := EncodeTokens(rev, Tokens(rev));
  }

  /** The marks scan: the last of the largest consumed-minus-written. */
  method FindCut(ghost ts: seq<Token>, marks: seq<Mark>) returns (k: nat)
    requires marks == Marks(ts, |ts|)
    ensures k == Cut(ts, |ts|)
  {
    k := 0;
    var best := -1;
    var n := 0;
    while n < |marks|
      invariant 0 <= n <= |marks|
      invariant if n == 0 then best == -1 else k == Cut(ts, n - 1) && best == Slack(ts, k)
    {
      MarkAt(ts, |ts|, n);
      var s := marks[n].inp - marks[n].outp;
      if s >= best {
        k, best := n, s;
      }
      n := n + 1;
    }
  }

  lemma {:induction false} MarkAt(ts: seq<Token>, n: nat, k: nat)
    requires k <= n <= |ts|
    ensures Marks(ts, n)[k] == Mark(Start(ts, k), Off(ts, k))
  {
    if k < n { MarkAt(ts, n - 1, k); }
  }

  /** `blz_encode`, up to the cut. */
  method EncodeBody(raw: seq<byte>) returns (body: seq<byte>, compLen: nat)
    ensures body == Plan(raw).body && compLen + Plan(raw).footer == Plan(raw).encLen
  {
    var rev := Reverse(raw);
    ghost var ts := Tokens(rev);
    var stream, marks := EncodeStream(rev);
    var k := FindCut(ts, marks);
    MarkAt(ts, |ts|, k);
    StartGrows(ts, k, |ts|);
    OffMonotone(ts, k, |ts|);
    var comp := Reverse(stream[..marks[k].outp]);
    body := raw[..|raw| - marks[k].inp] + comp;
    compLen := |comp|;
  }

  /** The file's last bytes, in front of which the body goes: filler, the lengths, the growth. */
  method Footer(ghost l: Layout, body: seq<byte>, footerLen: nat, encLen: nat, inc: nat) returns (out: seq<byte>)
    requires body == l.body && footerLen == l.footer && encLen == l.encLen && 8 <= footerLen < 12
    ensures out == Image(l, inc)
  {
    out := body + Fill(footerLen - 8, 0xFF) + LittleEndian(encLen, 4)[..3] + [footerLen] + LittleEndian(inc, 4);
  }

  /** `blz_encode`. */
  method BlzEncode(raw: seq<byte>) returns (res: Result)
    ensures res == Encode(raw)
  {
    var body, compLen := EncodeBody(raw);
    var footerLen := FooterLen(|body|);
    var encLen := compLen + footerLen;
    var total := |body| + footerLen;
    if encLen >= 0x1_0000_0000 || total > |raw| || |raw| - total >= 0x1_0000_0000 {
      return FieldOverflow;
    }
    var out := Footer(Plan(raw), body, footerLen, encLen, |raw| - total);
    if |raw| <= total {
      return Incompressible;
    }
    return Packed(out);
  }

  // ---- blz_decode -----------------------------------------------------------

  /** The mask shift, with a new flag byte when it runs out. */
  method TakeLane(data: seq<byte>, pak: int, mask: nat, flags: byte)
    returns (ok: bool, p: int, m: nat, f: byte)
    ensures NextLane(data, pak, mask, flags) == if ok then Some(Lane(p, m, f)) else None
  {
    p, m, f := pak, mask / 2, flags;
    if m == 0 {
      if !(0 < p <= |data|) {
        return false, p, m, f;
      }
      p := p - 1;
      f := data[p];
      m := 0x80;
    }
    ok := true;
  }

  /** `blz_decode`, filling one output array from its end. */
  method BlzDecode(data: seq<byte>) returns (res: Option<seq<byte>>)
    ensures res == Decode(data)
  {
    if |data| < 4 {
      return None;
    }
    if Word32(data, |data| - 4) == 0 {
      return Some(data);
    }
    if |data| < 8 {
      return None;
    }
    var h := ReadHeader(data);
    if h.enc > |data| {
      return None;
    }
    res := DecodeTokens(data, h);
  }

  /** The decoder's loop. */
  method DecodeTokens(data: seq<byte>, h: Header) returns (res: Option<seq<byte>>)
    requires h.inc > 0 && h.enc <= |data|
    ensures res == DecodeWith(data, h)
  {
    var n := |data|;
    var rEnd: nat := n - h.enc;
    var raw := new byte[n + h.inc](x => if 0 <= x < rEnd then data[x] else 0);
    assert raw[..] == data[..rEnd] + Zeros(h.inc + h.enc);
    var pak: int, r: nat, mask: nat, flags: byte := n - h.hdr, n + h.inc, 0, 0;
    while r > rEnd
      invariant rEnd <= r <= raw.Length
      invariant Run(data, rEnd, State(pak, r, mask, flags, raw[..])) == DecodeWith(data, h)
    {
      var ok := false;
      ok, pak, r, mask, flags := DecodeToken(data, rEnd, raw, pak, r, mask, flags);
      if !ok {
        return None;
      }
    }
    return Some(raw[..]);
  }

  /** One turn of the decoder's loop. */
  method DecodeToken(data: seq<byte>, rEnd: nat, raw: array<byte>, pak: int, r: nat, mask: nat, flags: byte)
    returns (ok: bool, pak': int, r': nat, mask': nat, flags': byte)
    requires rEnd < r <= raw.Length
    modifies raw
    ensures Step(data, rEnd, State(pak, r, mask, flags, old(raw[..])))
         == if ok then Some(State(pak', r', mask', flags', raw[..])) else None
  {
    ok, pak', mask', flags' := TakeLane(data, pak, mask, flags);
    r' := r;
    if !ok {
      return;
    }
    if !Flagged(Lane(pak', mask', flags')) {
      ok := 1 <= pak' <= |data|;
      if ok {
        pak' := pak' - 1;
        r' := r' - 1;
        raw[r'] := data[pak'];
      }
    } else {
      ok := 2 <= pak' <= |data| && r - 1 + CopyDisp(CopyWord(data, pak')) < raw.Length;
      if ok {
        var word := CopyWord(data, pak');
        pak' := pak' - 2;
        r' := CopyLoop(raw, r, CopyDisp(word), Min(CopyLen(word), r - rEnd));
      }
    }
  }

  /** The inner loop of a copy: one byte at a time, downwards. */
  method CopyLoop(raw: array<byte>, r: nat, disp: nat, ln: nat) returns (r': nat)
    requires ln <= r && 0 < disp && r - 1 + disp < raw.Length
    modifies raw
    ensures r' == r - ln && raw[..] == CopyDown(old(raw[..]), r, disp, ln)
  {
    r' := r;
    var left := ln;
    while left > 0
      invariant 0 <= left <= ln && r' == r - (ln - left)
      invariant CopyDown(raw[..], r', disp, left) == CopyDown(old(raw[..]), r, disp, ln)
    {
      r' := r' - 1;
      raw[r'] := raw[r' + disp];
      left := left - 1;
    }
  }

  // ---- check_in_place --------------------------------------------------------

  /** `check_in_place`. */
  method CheckLoop(packed: seq<byte>) returns (res: Option<bool>)
    ensures res == CheckInPlace(packed)
  {
    var n := |packed|;
    if n < 4 {
      return None;
    }
    if Word32(packed, n - 4) == 0 {
      return Some(true);
    }
    if n < 8 {
      return None;
    }
    var h := ReadHeader(packed);
    if h.enc > n {
      return None;
    }
    var pakEnd: nat := n - h.enc;
    var pak: int, r: nat, mask: nat, flags: byte := n - h.hdr, n + h.inc, 0, 0;
    while r > pakEnd
      invariant pakEnd <= r
      invariant CheckRun(packed, pakEnd, pak, r, mask, flags) == CheckWith(packed, h)
    {
      var ok := false;
      ok, pak, mask, flags := TakeLane(packed, pak, mask, flags);
      if !ok {
        return None;
      }
      if !Flagged(Lane(pak, mask, flags)) {
        pak := pak - 1;
        r := r - 1;
      } else {
        if !(2 <= pak <= n) {
          return None;
        }
        r := r - Min(CopyLen(CopyWord(packed, pak)), r - pakEnd);
        pak := pak - 2;
      }
      if r < pak {
        return Some(false);
      }
    }
    return Some(true);
  }
}
