/** A file of the DSi's backwards LZ, byte by byte (`blz_decode` of tools/make_dsi_font.py). */
module BlzExample {
  import opened Basics
  import opened BlzFormat
  import opened BlzDecoder

  /** A plain head of one byte; a copy of eighteen bytes from four above; four literals; their flag
      byte, the copy's flag in bit 3; and the footer: fifteen compressed bytes with the footer, eight
      bytes of footer, seven bytes more when decoded. */
  const FILE: seq<byte> := [7, 0x01, 0xF0, 4, 3, 2, 1, 0x08, 15, 0, 0, 8, 7, 0, 0, 0]

  function After(pak: int, r: nat, mask: nat, buf: seq<byte>): State { State(pak, r, mask, 0x08, buf) }

  lemma Flags()
    ensures !Test(8, 0x80) && !Test(8, 0x40) && !Test(8, 0x20) && !Test(8, 0x10) && Test(8, 8)
    ensures IsMask(0x80) && IsMask(0x40) && IsMask(0x20) && IsMask(0x10) && IsMask(8)
  {
    assert IsMask(1) && IsMask(2) && IsMask(4) && IsMask(8) && IsMask(0x10) && IsMask(0x20) && IsMask(0x40);
    assert Test(8, 8) == Test(4, 4) == Test(2, 2) == Test(1, 1);
    assert !Test(1, 2) && !Test(2, 4) && !Test(4, 8);
    assert !Test(1, 4) && !Test(2, 8) && !Test(4, 0x10);
    assert !Test(1, 8) && !Test(2, 0x10) && !Test(4, 0x20);
    assert !Test(1, 0x10) && !Test(2, 0x20) && !Test(4, 0x40);
  }

  lemma OneStep(s: State, t: State)
    requires 1 < s.r <= |s.buf| && Step(FILE, 1, s) == Some(t)
    ensures Run(FILE, 1, s) == Run(FILE, 1, t)
  {
  }

  /** The four literals, from the last byte down. */
  lemma Literals(buf: seq<byte>)
    requires |buf| == 23
    ensures var b := buf[22 := 1][21 := 2][20 := 3][19 := 4];
      Run(FILE, 1, State(8, 23, 0, 0, buf)) == Run(FILE, 1, After(3, 19, 0x10, b))
  {
    Flags();
    var b1 := buf[22 := 1];
    var b2 := b1[21 := 2];
    var b3 := b2[20 := 3];
    OneStep(State(8, 23, 0, 0, buf), After(6, 22, 0x80, b1));
    OneStep(After(6, 22, 0x80, b1), After(5, 21, 0x40, b2));
    OneStep(After(5, 21, 0x40, b2), After(4, 20, 0x20, b3));
    OneStep(After(4, 20, 0x20, b3), After(3, 19, 0x10, b3[19 := 4]));
  }

  lemma TheCopy(buf: seq<byte>, disp: nat, n: nat)
    requires |buf| == 23 && disp == 4 && n == 18
    ensures Run(FILE, 1, After(3, 19, 0x10, buf)) == Some(CopyDown(buf, 19, disp, n))
  {
    Flags();
    var out := CopyDown(buf, 19, disp, n);
    CopyStep(buf, disp, n);
    OneStep(After(3, 19, 0x10, buf), After(1, 1, 8, out));
  }

  lemma CopyStep(buf: seq<byte>, disp: nat, n: nat)
    requires |buf| == 23 && disp == 4 && n == 18
    ensures Step(FILE, 1, After(3, 19, 0x10, buf)) == Some(After(1, 1, 8, CopyDown(buf, 19, disp, n)))
  {
    Flags();
    var word := CopyWord(FILE, 3);
    assert word == 0xF001;
    assert CopyDisp(word) == disp && Min(CopyLen(word), 19 - 1) == n;
  }

  /** What it decodes to: the head, and 1, 2, 3, 4 over and over from the last byte down. */
  lemma KnownFile()
    ensures Decode(FILE).Some?
    ensures var d := Decode(FILE).value;
      && |d| == 23 && d[0] == 7 && d[22] == 1 && d[21] == 2 && d[20] == 3 && d[19] == 4
      && forall k | 1 <= k < 19 :: d[k] == d[k + 4]
  {
    assert Word32(FILE, 12) == 7 && Word24(FILE, 8) == 15;
    assert ReadHeader(FILE) == Header(7, 8, 15);
    var buf := FILE[..1] + Zeros(22);
    Literals(buf);
    TheCopy(buf[22 := 1][21 := 2][20 := 3][19 := 4], 4, 18);
  }
}
