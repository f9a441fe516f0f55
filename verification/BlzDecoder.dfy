/** `blz_decode` and `check_in_place` of tools/make_dsi_font.py as functions: one step per
    token, reading the packed file downwards and filling the output downwards. */
module BlzDecoder {
  import opened Basics
  import opened BlzFormat

  /** A decoder between two tokens. `buf` is the output. */
  datatype State = State(pak: int, r: int, mask: nat, flags: byte, buf: seq<byte>)

  /** The footer's fields. */
  datatype Header = Header(inc: nat, hdr: nat, enc: nat)

  function Word32(data: seq<byte>, at: nat): nat
    requires at + 4 <= |data|
  {
    data[at] as int + data[at + 1] as int * 0x100 + data[at + 2] as int * 0x1_0000 + data[at + 3] as int * 0x100_0000
  }

  function Word24(data: seq<byte>, at: nat): nat
    requires at + 3 <= |data|
  {
    data[at] as int + data[at + 1] as int * 0x100 + data[at + 2] as int * 0x1_0000
  }

  function ReadHeader(data: seq<byte>): Header
    requires |data| >= 8
  {
    var n := |data|;
    Header(Word32(data, n - 4), data[n - 5], Word24(data, n - 8))
  }

  /** The flag byte and mask in force for the next token, and the read position after any
      refill; None past the front of the data. */
  datatype Lane = Lane(pak: int, mask: nat, flags: byte)

  function NextLane(data: seq<byte>, pak: int, mask: nat, flags: byte): Option<Lane> {
    if mask / 2 != 0 then Some(Lane(pak, mask / 2, flags))
    else if 0 < pak <= |data| then Some(Lane(pak - 1, 0x80, data[pak - 1]))
    else None
  }

  /** flags & mask != 0. The decoder's masks are single bits, or it has been given none. */
  predicate Flagged(l: Lane) { IsMask(l.mask) && Test(l.flags, l.mask) }

  /** The copy word at the read position: length and distance. */
  function CopyWord(data: seq<byte>, pak: int): nat
    requires 2 <= pak <= |data|
  {
    data[pak - 1] as int * 0x100 + data[pak - 2] as int
  }
  function CopyLen(word: nat): nat { word / 0x1000 + 3 }
  function CopyDisp(word: nat): nat { word % 0x1000 + 3 }

  /** ln bytes copied downwards from `disp` above the write position, one at a time: a source
      byte may be one this copy has just written. */
  function CopyDown(buf: seq<byte>, r: nat, disp: nat, ln: nat): (out: seq<byte>)
    requires ln <= r && 0 < disp && r - 1 + disp < |buf|
    ensures |out| == |buf|
    ensures forall x | 0 <= x < |buf| && (x < r - ln || r <= x) :: out[x] == buf[x]
    ensures forall x | r - ln <= x < r :: out[x] == out[x + disp]
    decreases ln
  {
    if ln == 0 then buf else CopyDown(buf[r - 1 := buf[r - 1 + disp]], r - 1, disp, ln - 1)
  }

  function StepLit(data: seq<byte>, s: State, l: Lane): Option<State>
    requires 0 < s.r <= |s.buf|
  {
    if 1 <= l.pak <= |data|
    then Some(State(l.pak - 1, s.r - 1, l.mask, l.flags, s.buf[s.r - 1 := data[l.pak - 1]]))
    else None
  }

  function StepCopy(data: seq<byte>, rEnd: nat, s: State, l: Lane): Option<State>
    requires rEnd < s.r <= |s.buf|
  {
    if 2 <= l.pak <= |data| then
      var word := CopyWord(data, l.pak);
      var ln := Min(CopyLen(word), s.r - rEnd);
      if s.r - 1 + CopyDisp(word) < |s.buf|
      then Some(State(l.pak - 2, s.r - ln, l.mask, l.flags, CopyDown(s.buf, s.r, CopyDisp(word), ln)))
      else None
    else None
  }

  /** One token. `rEnd` is where the plain head ends; a copy is clipped there. */
  function Step(data: seq<byte>, rEnd: nat, s: State): (o: Option<State>)
    requires rEnd < s.r <= |s.buf|
    ensures o.Some? ==> rEnd <= o.value.r < s.r && |o.value.buf| == |s.buf| && o.value.pak < s.pak
  {
    match NextLane(data, s.pak, s.mask, s.flags)
    case None => None
    case Some(l) => if Flagged(l) then StepCopy(data, rEnd, s, l) else StepLit(data, s, l)
  }

  function Run(data: seq<byte>, rEnd: nat, s: State): Option<seq<byte>>
    requires rEnd <= s.r <= |s.buf|
    decreases s.r
  {
    if s.r == rEnd then Some(s.buf)
    else match Step(data, rEnd, s)
      case None => None
      case Some(next) => Run(data, rEnd, next)
  }

  function Zeros(n: nat): (z: seq<byte>)
    ensures |z| == n
  {
    seq(n, _ => 0)
  }

  /** A zero length increase marks a file stored as it is. */
  predicate Stored(data: seq<byte>) { |data| >= 4 && Word32(data, |data| - 4) == 0 }

  /** None where the script would index outside the data. */
  function Decode(data: seq<byte>): Option<seq<byte>> {
    if Stored(data) then Some(data) else if |data| < 8 then None else DecodeWith(data, ReadHeader(data))
  }

  function DecodeWith(data: seq<byte>, h: Header): Option<seq<byte>> {
    var n := |data|;
    if h.inc == 0 then Some(data)
    else if h.enc > n then None
    else Run(data, n - h.enc, State(n - h.hdr, n + h.inc, 0, 0, data[..n - h.enc] + Zeros(h.inc + h.enc)))
  }

  // ---- the in-place check ----------------------------------------------------

  /** `check_in_place`'s loop: positions only, no output. False as soon as a token end leaves
      the write position below the read position. */
  function CheckRun(data: seq<byte>, rEnd: nat, pak: int, r: nat, mask: nat, flags: byte): Option<bool>
    requires rEnd <= r
    decreases r
  {
    if r == rEnd then Some(true)
    else match NextLane(data, pak, mask, flags)
      case None => None
      case Some(l) =>
        if !Flagged(l) then
          if r - 1 < l.pak - 1 then Some(false) else CheckRun(data, rEnd, l.pak - 1, r - 1, l.mask, l.flags)
        else if 2 <= l.pak <= |data| then
          var r' := r - Min(CopyLen(CopyWord(data, l.pak)), r - rEnd);
          if r' < l.pak - 2 then Some(false) else CheckRun(data, rEnd, l.pak - 2, r', l.mask, l.flags)
        else None
  }

  function CheckInPlace(data: seq<byte>): Option<bool> {
    if Stored(data) then Some(true) else if |data| < 8 then None else CheckWith(data, ReadHeader(data))
  }

  function CheckWith(data: seq<byte>, h: Header): Option<bool> {
    var n := |data|;
    if h.inc == 0 then Some(true)
    else if h.enc > n then None
    else CheckRun(data, n - h.enc, n - h.hdr, n + h.inc, 0, 0)
  }

  // ---- decompression in one buffer -------------------------------------------

  /** The same steps with the packed file at the front of the output buffer, so that a step
      reads whatever earlier steps have left there. */
  function RunInPlace(rEnd: nat, s: State): Option<seq<byte>>
    requires rEnd <= s.r <= |s.buf|
    decreases s.r
  {
    if s.r == rEnd then Some(s.buf)
    else match Step(s.buf, rEnd, s)
      case None => None
      case Some(next) => RunInPlace(rEnd, next)
  }

  function DecodeInPlace(data: seq<byte>): Option<seq<byte>> {
    if Stored(data) then Some(data) else if |data| < 8 then None else DecodeInPlaceWith(data, ReadHeader(data))
  }

  function DecodeInPlaceWith(data: seq<byte>, h: Header): Option<seq<byte>> {
    var n := |data|;
    if h.inc == 0 then Some(data)
    else if h.enc > n then None
    else RunInPlace(n - h.enc, State(n - h.hdr, n + h.inc, 0, 0, data + Zeros(h.inc)))
  }

  /** The separate-buffer decoder `s` and the one-buffer decoder `t` at the same token: equal
      positions, equal output so far, and everything below the write position still as packed. */
  ghost predicate Together(data: seq<byte>, rEnd: nat, s: State, t: State) {
    && t == s.(buf := t.buf) && |t.buf| == |s.buf|
    && 0 <= s.pak <= |data| <= |s.buf| && rEnd <= s.r <= |s.buf| && rEnd <= |data|
    && s.pak <= s.r
    && (forall x | s.r <= x < |s.buf| :: t.buf[x] == s.buf[x])
    && (forall x | 0 <= x < s.r && x < |data| :: t.buf[x] == data[x])
    && (forall x | 0 <= x < rEnd :: s.buf[x] == data[x])
  }

  /** A step taken while the read position is at or below the write position reads only bytes
      nobody has overwritten, and so does the same thing in one buffer. */
  lemma StepTogether(data: seq<byte>, rEnd: nat, s: State, t: State)
    requires Together(data, rEnd, s, t) && rEnd < s.r
    requires Step(data, rEnd, s).Some? && Step(data, rEnd, s).value.pak <= Step(data, rEnd, s).value.r
    ensures Step(t.buf, rEnd, t).Some?
    ensures Together(data, rEnd, Step(data, rEnd, s).value, Step(t.buf, rEnd, t).value)
  {
    var l := NextLane(data, s.pak, s.mask, s.flags).value;
    assert NextLane(t.buf, t.pak, t.mask, t.flags) == Some(l);
    if Flagged(l) {
      StepCopyTogether(data, rEnd, s, t, l);
    } else {
      StepLitTogether(data, rEnd, s, t, l);
    }
  }

  lemma StepLitTogether(data: seq<byte>, rEnd: nat, s: State, t: State, l: Lane)
    requires Together(data, rEnd, s, t) && rEnd < s.r && l.pak <= s.pak
    requires StepLit(data, s, l).Some? && l.pak <= s.r
    ensures StepLit(t.buf, t, l).Some?
    ensures Together(data, rEnd, StepLit(data, s, l).value, StepLit(t.buf, t, l).value)
  {
  }

  lemma StepCopyTogether(data: seq<byte>, rEnd: nat, s: State, t: State, l: Lane)
    requires Together(data, rEnd, s, t) && rEnd < s.r && l.pak <= s.pak
    requires StepCopy(data, rEnd, s, l).Some?
    requires StepCopy(data, rEnd, s, l).value.pak <= StepCopy(data, rEnd, s, l).value.r
    ensures StepCopy(t.buf, rEnd, t, l).Some?
    ensures Together(data, rEnd, StepCopy(data, rEnd, s, l).value, StepCopy(t.buf, rEnd, t, l).value)
  {
    var word := CopyWord(data, l.pak);
    assert CopyWord(t.buf, l.pak) == word;
    CopyTogether(s.buf, t.buf, s.r, CopyDisp(word), Min(CopyLen(word), s.r - rEnd));
  }

  lemma {:induction false} CopyTogether(a: seq<byte>, b: seq<byte>, r: nat, disp: nat, ln: nat)
    requires |a| == |b| && ln <= r && 0 < disp && r - 1 + disp < |a|
    requires forall x | r <= x < |a| :: a[x] == b[x]
    ensures forall x | r - ln <= x < |a| :: CopyDown(a, r, disp, ln)[x] == CopyDown(b, r, disp, ln)[x]
    decreases ln
  {
    if ln > 0 {
      CopyTogether(a[r - 1 := a[r - 1 + disp]], b[r - 1 := b[r - 1 + disp]], r - 1, disp, ln - 1);
    }
  }

  /** The check moves exactly as the decoder does. */
  lemma CheckFollows(data: seq<byte>, rEnd: nat, s: State)
    requires rEnd < s.r <= |s.buf| && Step(data, rEnd, s).Some?
    ensures var n := Step(data, rEnd, s).value;
            CheckRun(data, rEnd, s.pak, s.r, s.mask, s.flags) ==
            if n.r < n.pak then Some(false) else CheckRun(data, rEnd, n.pak, n.r, n.mask, n.flags)
  {
  }

  lemma {:induction false} RunTogether(data: seq<byte>, rEnd: nat, s: State, t: State)
    requires Together(data, rEnd, s, t)
    requires Run(data, rEnd, s).Some?
    requires CheckRun(data, rEnd, s.pak, s.r, s.mask, s.flags) == Some(true)
    ensures RunInPlace(rEnd, t) == Run(data, rEnd, s)
    decreases s.r
  {
    if s.r == rEnd {
      assert t.buf == s.buf;
    } else {
      CheckFollows(data, rEnd, s);
      StepTogether(data, rEnd, s, t);
      RunTogether(data, rEnd, Step(data, rEnd, s).value, Step(t.buf, rEnd, t).value);
    }
  }

  lemma CheckIsSoundWith(data: seq<byte>, h: Header)
    requires DecodeWith(data, h).Some? && CheckWith(data, h) == Some(true)
    ensures DecodeInPlaceWith(data, h) == DecodeWith(data, h)
  {
    var n := |data|;
    if h.inc > 0 {
      var s := State(n - h.hdr, n + h.inc, 0, 0, data[..n - h.enc] + Zeros(h.inc + h.enc));
      var t := s.(buf := data + Zeros(h.inc));
      assert NextLane(data, s.pak, 0, 0).Some?;
      RunTogether(data, n - h.enc, s, t);
    }
  }

  /** What `check_in_place` is for: on any file it accepts, decompressing in one buffer gives
      what decompressing into a second one gives. */
  lemma CheckIsSound(data: seq<byte>)
    requires Decode(data).Some? && CheckInPlace(data) == Some(true)
    ensures DecodeInPlace(data) == Decode(data)
  {
    if !Stored(data) { CheckIsSoundWith(data, ReadHeader(data)); }
  }
}
