/** Loop bodies the scan of src/core/cpu/idle_loop.cpp accepts: a polling loop of the kind it is for,
    four that carry state from one pass to the next, each for one thing the scan does not see, and
    one whose re-check looks at another address than the loop polls. */
module IdleLimits {
  import opened IdleCheck
  import opened IdleLoop

  function Load(rd: nat, rn: nat): Instr
    requires rd < 16 && rn < 16
  {
    Instr(ALWAYS, LdrStr(true, true, false, rd, rn, 0))
  }

  function Data(opcode: nat, s: bool, rd: nat, rn: nat, rm: nat): Instr
    requires opcode < 16 && rd < 16 && rn < 16 && rm < 16
  {
    Instr(ALWAYS, Dp(ImmShift, opcode, s, rd, rn, rm, 0))
  }

  /** r0 counts up while the polled word is not zero: the move that would reset it is predicated,
      and counts as a certain write. */
  const PREDICATED: seq<Instr> := [
    Load(1, 2),                                            // ldr   r1, [r2]
    Instr(ALWAYS, Dp(Imm, 10, true, 0, 1, 0, 0)),          // cmp   r1, #0
    Instr(0, Dp(ImmShift, 13, false, 0, 0, 3, 0)),         // moveq r0, r3
    Instr(ALWAYS, Dp(Imm, 4, false, 5, 0, 0, 0)),          // add   r5, r0, #1
    Data(13, false, 0, 0, 5),                              // mov   r0, r5
    Instr(ALWAYS, Branch(0))
  ]

  /** Its meaning where memory holds a non-zero word. */
  function Counting(k: nat, r: seq<int>): seq<int>
  {
    if |r| != REGS then r
    else
      match k
      case 0 => r[1 := 7]
      case 1 => r[FLAGS := 0]
      case 3 => r[5 := r[0] + 1]
      case 4 => r[0 := r[5]]
      case _ => r
  }

  /** The flags move on by themselves: mrs reads them, and the scan does not record it. */
  const FLAG_READ: seq<Instr> := [
    Instr(ALWAYS, Mrs(0)),                                 // mrs  r0, cpsr
    Load(1, 2),                                            // ldr  r1, [r2]
    Data(4, true, 4, 0, 0),                                // adds r4, r0, r0
    Instr(ALWAYS, Branch(0))
  ]

  /** Its meaning on the flags N, Z, C, V as bits 3 to 0: doubling shifts Z into N and N into C. */
  function Shifting(k: nat, r: seq<int>): seq<int>
  {
    if |r| != REGS then r
    else
      match k
      case 0 => r[0 := r[FLAGS]]
      case 1 => r[1 := 7]
      case 2 => r[4 := 2 * r[0]][FLAGS := if r[0] == 4 then 8 else if r[0] == 8 then 2 else 0]
      case _ => r
  }

  /** The carry flips: tst leaves it alone, but counts as writing all flags. */
  const PARTIAL: seq<Instr> := [
    Load(1, 2),                                            // ldr r1, [r2]
    Data(8, true, 0, 1, 1),                                // tst r1, r1
    Data(5, false, 0, 3, 3),                               // adc r0, r3, r3
    Data(10, true, 0, 4, 0),                               // cmp r4, r0
    Instr(ALWAYS, Branch(0))
  ]

  /** Its meaning on the carry, with r3 and r4 zero. */
  function Flipping(k: nat, r: seq<int>): seq<int>
  {
    if |r| != REGS then r
    else
      match k
      case 0 => r[1 := 7]
      case 2 => r[0 := r[3] + r[3] + r[FLAGS]]
      case 3 => r[FLAGS := if r[4] >= r[0] then 1 else 0]
      case _ => r
  }

  /** The carry flips: a rotate through it reads it, and the scan does not record that either. */
  const ROTATED: seq<Instr> := [
    Load(1, 2),                                            // ldr r1, [r2]
    Data(13, false, 0, 0, 3),                              // mov r0, r3, rrx
    Data(10, true, 0, 4, 0),                               // cmp r4, r0
    Instr(ALWAYS, Branch(0))
  ]

  /** Its meaning on the carry, with r3 and r4 zero: the carry comes in at the top. */
  function Rotating(k: nat, r: seq<int>): seq<int>
  {
    if |r| != REGS then r
    else
      match k
      case 0 => r[1 := 7]
      case 1 => r[0 := r[3] / 2 + 0x8000_0000 * r[FLAGS]]
      case 2 => r[FLAGS := if r[4] >= r[0] then 1 else 0]
      case _ => r
  }

  function Always(exec: (nat, seq<int>) -> seq<int>): Meaning { Meaning(exec, (k, r) => true) }

  function Zeros(): (r: seq<int>)
    ensures |r| == REGS && forall x | 0 <= x < REGS :: r[x] == 0
  {
    seq(REGS, _ => 0)
  }

  /** Accepted, on its way round, and different the next time round. */
  ghost predicate Fooled(body: seq<Instr>, m: Meaning, regs: seq<int>)
  {
    && Accepted(body, 0)
    && var o := Pass(m, body, 0, regs);
       o.Back? && Pass(m, body, 0, o.regs).Back? && Pass(m, body, 0, o.regs).regs != o.regs
  }

  /** One more instruction scanned. */
  lemma Scan(body: seq<Instr>, k: nat, written: set<nat>, early: set<nat>)
    requires k < |body| && Written(body, k) == written && ReadFirst(body, k) == early
    ensures Written(body, k + 1) == written + Writes(body[k])
    ensures ReadFirst(body, k + 1) == early + (Reads(body[k]) - written)
  {
  }

  lemma PredicatedScan()
    ensures Written(PREDICATED, 6) == {0, 1, 5, FLAGS} && ReadFirst(PREDICATED, 6) == {2, 3}
  {
    var b := PREDICATED;
    Scan(b, 0, {}, {});
    Scan(b, 1, {1}, {2});
    Scan(b, 2, {1, FLAGS}, {2});
    Scan(b, 3, {0, 1, FLAGS}, {2, 3});
    Scan(b, 4, {0, 1, 5, FLAGS}, {2, 3});
    Scan(b, 5, {0, 1, 5, FLAGS}, {2, 3});
  }

  lemma PredicatedAccepted()
    ensures Accepted(PREDICATED, 0)
  {
    PredicatedScan();
    SitesOf(PREDICATED, 0);
  }

  lemma PredicatedWriteFools()
    ensures Fooled(PREDICATED, Always(Counting), Zeros())
  {
    PredicatedAccepted();
    CountingPass(Zeros(), 0);
    CountingPass(Pass(Always(Counting), PREDICATED, 0, Zeros()).regs, 1);
  }

  lemma CountingPass(r: seq<int>, n: int)
    requires |r| == REGS && r[0] == n
    ensures var o := Pass(Always(Counting), PREDICATED, 0, r); o.Back? && |o.regs| == REGS && o.regs[0] == n + 1
  {
    var b, m := PREDICATED, Always(Counting);
    var r1 := r[1 := 7][FLAGS := 0];
    assert Pass(m, b, 0, r) == Pass(m, b, 2, r1);
    var r2 := r1[5 := n + 1];
    assert Pass(m, b, 2, r1) == Pass(m, b, 4, r2);
    assert Pass(m, b, 4, r2) == Back(r2[0 := n + 1]);
  }

  lemma SitesOf(body: seq<Instr>, n: nat)
    requires n < |body| && body[n].op.LdrStr? && forall k | 0 <= k < |body| && k != n :: !body[k].op.LdrStr?
    ensures |Sites(body, 0, |body|)| == 1
  {
    NoSites(body, n);
    SitesAfter(body, n, |body|);
  }

  lemma {:induction false} NoSites(body: seq<Instr>, n: nat)
    requires n <= |body| && forall k | 0 <= k < n :: !body[k].op.LdrStr?
    ensures Sites(body, 0, n) == []
  {
    if n > 0 {
      NoSites(body, n - 1);
    }
  }

  lemma {:induction false} SitesAfter(body: seq<Instr>, n: nat, k: nat)
    requires n < k <= |body| && body[n].op.LdrStr? && forall j | n < j < k :: !body[j].op.LdrStr?
    requires Sites(body, 0, n) == []
    ensures |Sites(body, 0, k)| == 1
  {
    if k > n + 1 {
      SitesAfter(body, n, k - 1);
    }
  }

  lemma FlagReadFools()
    ensures Fooled(FLAG_READ, Always(Shifting), Zeros()[FLAGS := 4])
  {
    var b, m := FLAG_READ, Always(Shifting);
    Scan(b, 0, {}, {});
    Scan(b, 1, {0}, {});
    Scan(b, 2, {0, 1}, {2});
    Scan(b, 3, {0, 1, 4, FLAGS}, {2});
    SitesOf(b, 1);
    var r := Zeros()[FLAGS := 4];
    ShiftingPass(r);
    ShiftingPass(Pass(m, b, 0, r).regs);
  }

  lemma ShiftingPass(r: seq<int>)
    requires |r| == REGS
    ensures var o := Pass(Always(Shifting), FLAG_READ, 0, r);
      o.Back? && |o.regs| == REGS && o.regs[FLAGS] == if r[FLAGS] == 4 then 8 else if r[FLAGS] == 8 then 2 else 0
  {
    var b, m := FLAG_READ, Always(Shifting);
    var r1 := r[0 := r[FLAGS]][1 := 7];
    assert Pass(m, b, 0, r) == Pass(m, b, 2, r1);
    assert Pass(m, b, 2, r1) == Pass(m, b, 3, Shifting(2, r1));
  }

  lemma PartialScan()
    ensures Written(PARTIAL, 5) == {0, 1, FLAGS} && ReadFirst(PARTIAL, 5) == {2, 3, 4}
  {
    var b := PARTIAL;
    Scan(b, 0, {}, {});
    Scan(b, 1, {1}, {2});
    Scan(b, 2, {1, FLAGS}, {2});
    Scan(b, 3, {0, 1, FLAGS}, {2, 3});
    Scan(b, 4, {0, 1, FLAGS}, {2, 3, 4});
  }

  lemma PartialWriteFools()
    ensures Fooled(PARTIAL, Always(Flipping), Zeros())
  {
    PartialScan();
    SitesOf(PARTIAL, 0);
    FlippingPass(Zeros());
    FlippingPass(Pass(Always(Flipping), PARTIAL, 0, Zeros()).regs);
  }

  lemma FlippingPass(r: seq<int>)
    requires |r| == REGS && r[3] == 0 && r[4] == 0 && (r[FLAGS] == 0 || r[FLAGS] == 1)
    ensures var o := Pass(Always(Flipping), PARTIAL, 0, r);
      o.Back? && |o.regs| == REGS && o.regs[3] == 0 && o.regs[4] == 0 && o.regs[FLAGS] == 1 - r[FLAGS]
  {
    var b, m := PARTIAL, Always(Flipping);
    var r1 := r[1 := 7];
    assert Pass(m, b, 0, r) == Pass(m, b, 2, r1);
    var r2 := r1[0 := r[FLAGS]];
    assert Pass(m, b, 2, r1) == Pass(m, b, 3, r2);
    assert Pass(m, b, 3, r2) == Pass(m, b, 4, Flipping(3, r2));
  }

  lemma RotatedScan()
    ensures Written(ROTATED, 4) == {0, 1, FLAGS} && ReadFirst(ROTATED, 4) == {2, 3, 4}
  {
    var b := ROTATED;
    Scan(b, 0, {}, {});
    Scan(b, 1, {1}, {2});
    Scan(b, 2, {0, 1}, {2, 3});
    Scan(b, 3, {0, 1, FLAGS}, {2, 3, 4});
  }

  lemma RotateFools()
    ensures Fooled(ROTATED, Always(Rotating), Zeros())
  {
    RotatedScan();
    SitesOf(ROTATED, 0);
    RotatingPass(Zeros());
    RotatingPass(Pass(Always(Rotating), ROTATED, 0, Zeros()).regs);
  }

  lemma RotatingPass(r: seq<int>)
    requires |r| == REGS && r[3] == 0 && r[4] == 0 && (r[FLAGS] == 0 || r[FLAGS] == 1)
    ensures var o := Pass(Always(Rotating), ROTATED, 0, r);
      o.Back? && |o.regs| == REGS && o.regs[3] == 0 && o.regs[4] == 0 && o.regs[FLAGS] == 1 - r[FLAGS]
  {
    var b, m := ROTATED, Always(Rotating);
    var r1 := r[1 := 7];
    assert Pass(m, b, 0, r) == Pass(m, b, 1, r1);
    var r2 := r1[0 := 0x8000_0000 * r[FLAGS]];
    assert Pass(m, b, 1, r1) == Pass(m, b, 2, r2);
    assert Pass(m, b, 2, r2) == Pass(m, b, 3, Rotating(2, r2));
  }

  // ---- a loop the scan is for --------------------------------------------------------------------

  /** A word is polled until one of the bits in r2 shows. */
  const POLL: seq<Instr> := [
    Load(0, 1),                                            // ldr r0, [r1]
    Data(8, true, 0, 0, 2),                                // tst r0, r2
    Instr(0, Branch(0))                                    // beq
  ]

  /** Its meaning where the word is zero: the test sets Z. */
  function Polling(k: nat, r: seq<int>): seq<int>
  {
    if |r| != REGS then r
    else
      match k
      case 0 => r[0 := 0]
      case 1 => r[FLAGS := if r[0] == 0 then 4 else r[2]]
      case _ => r
  }

  function Waiting(): Meaning { Meaning(Polling, (k, r) => k == 2 && |r| == REGS && r[FLAGS] == 4) }

  lemma PollScan()
    ensures Written(POLL, 3) == {0, FLAGS} && ReadFirst(POLL, 3) == {1, 2}
  {
    var b := POLL;
    Scan(b, 0, {}, {});
    Scan(b, 1, {0}, {1});
    Scan(b, 2, {0, FLAGS}, {1, 2});
  }

  lemma PollLoad()
    ensures Respects(Waiting(), POLL[0], 0)
  {
    assert Reads(POLL[0]) == {1} && Writes(POLL[0]) == {0};
  }

  lemma PollTest()
    ensures Respects(Waiting(), POLL[1], 1)
  {
    assert Reads(POLL[1]) == {0, 2} && Writes(POLL[1]) == {FLAGS};
    forall a: seq<int>, b: seq<int> | Agree(a, b, {0, 2}) ensures Agree(Polling(1, a), Polling(1, b), {FLAGS}) {
      assert 0 in {0, 2} && 2 in {0, 2};
      assert a[0] == b[0] && a[2] == b[2];
    }
  }

  lemma PollBranch()
    ensures Respects(Waiting(), POLL[2], 2)
  {
    assert Reads(POLL[2]) == {FLAGS} && Writes(POLL[2]) == {};
    forall a: seq<int>, b: seq<int> | Agree(a, b, {FLAGS}) ensures a[FLAGS] == b[FLAGS] {
      assert FLAGS in {FLAGS};
    }
  }

  lemma PollRespects()
    ensures RespectsAll(Waiting(), POLL)
  {
    PollLoad();
    PollTest();
    PollBranch();
  }

  /** The theorem at work: the loop is accepted, meets every hypothesis, and may be skipped over for
      as long as the word stays zero. */
  lemma PollingLoopSkips(regs: seq<int>, n: nat)
    requires |regs| == REGS
    ensures Accepted(POLL, 0) && Plain(POLL, 0) && RespectsAll(Waiting(), POLL)
    ensures Pass(Waiting(), POLL, 0, regs) == Back(regs[0 := 0][FLAGS := 4])
    ensures Passes(Waiting(), POLL, n, Pass(Waiting(), POLL, 0, regs).regs) == Back(regs[0 := 0][FLAGS := 4])
  {
    PollScan();
    SitesOf(POLL, 0);
    PollRespects();
    PollPass(regs);
    PollPass(regs[0 := 0][FLAGS := 4]);
    PassesOnward(Waiting(), POLL, n, regs[0 := 0][FLAGS := 4]);
  }

  lemma PollPass(regs: seq<int>)
    requires |regs| == REGS
    ensures Pass(Waiting(), POLL, 0, regs) == Back(regs[0 := 0][FLAGS := 4])
  {
    var m, r1 := Waiting(), regs[0 := 0];
    assert Polling(0, regs) == r1 && Polling(1, r1) == r1[FLAGS := 4];
    assert Pass(m, POLL, 2, r1[FLAGS := 4]) == Back(r1[FLAGS := 4]);
    assert Pass(m, POLL, 1, r1) == Pass(m, POLL, 2, Polling(1, r1));
  }

  /** From a fixed point on, every pass is the same. */
  lemma {:induction false} PassesOnward(m: Meaning, body: seq<Instr>, n: nat, regs: seq<int>)
    requires |body| > 0 && Pass(m, body, 0, regs) == Back(regs)
    ensures Passes(m, body, n, regs) == Back(regs)
  {
    if n > 0 { PassesOnward(m, body, n - 1, regs); }
  }

  // ---- a loop polling what it may not -----------------------------------------------------------

  /** A load through a pointer from the literal pool, over the pointer itself. */
  const REUSED: seq<Instr> := [
    Instr(ALWAYS, LdrStr(true, true, false, 0, PC, 8)),    // ldr r0, [pc, #8]
    Load(0, 0),                                            // ldr r0, [r0]
    Data(8, true, 0, 0, 2),                                // tst r0, r2
    Instr(0, Branch(0))                                    // beq
  ]

  const DISPSTAT := 0x0400_0004

  /** Its meaning where the pointer is DISPSTAT, which reads as zero. */
  function Watching(k: nat, r: seq<int>): seq<int>
  {
    if |r| != REGS then r
    else
      match k
      case 0 => r[0 := DISPSTAT]
      case 1 => r[0 := 0]
      case 2 => r[FLAGS := 4]
      case _ => r
  }

  function Watch(): Meaning { Meaning(Watching, (k, r) => k == 3) }

  lemma ReusedScan()
    ensures Written(REUSED, 4) == {0, FLAGS} && ReadFirst(REUSED, 4) == {2}
  {
    var b := REUSED;
    Scan(b, 0, {}, {});
    Scan(b, 1, {0}, {});
    Scan(b, 2, {0}, {});
    Scan(b, 3, {0, FLAGS}, {2});
  }

  lemma ReusedSites()
    ensures Sites(REUSED, 0, 4) == [Absolute(16), Based(0, 0)]
  {
    var b := REUSED;
    assert Sites(b, 0, 1) == [Absolute(16)];
    assert Sites(b, 0, 2) == [Absolute(16), Based(0, 0)];
    assert Sites(b, 0, 3) == Sites(b, 0, 2);
  }

  lemma ReusedRespects()
    ensures RespectsAll(Watch(), REUSED)
  {
    var b := REUSED;
    assert Writes(b[0]) == {0} && Writes(b[1]) == {0} && Writes(b[2]) == {FLAGS} && Writes(b[3]) == {};
    assert Respects(Watch(), b[0], 0) && Respects(Watch(), b[1], 1);
    assert Respects(Watch(), b[2], 2) && Respects(Watch(), b[3], 3);
  }

  lemma ReusedPass(regs: seq<int>)
    requires |regs| == REGS
    ensures Pass(Watch(), REUSED, 0, regs) == Back(regs[0 := 0][FLAGS := 4])
    ensures Reach(Watch(), REUSED, 0, 1, regs) == regs[0 := DISPSTAT]
  {
    var m, b := Watch(), REUSED;
    var r1 := regs[0 := DISPSTAT];
    var r2 := r1[0 := 0];
    assert r2 == regs[0 := 0];
    assert Pass(m, b, 2, r2) == Pass(m, b, 3, r2[FLAGS := 4]);
    assert Pass(m, b, 1, r1) == Pass(m, b, 2, r2);
  }

  /** The memory below the I/O registers. */
  function Low(): nat -> bool { a => a < 0x0400_0000 }

  lemma ReusedLooks(next: seq<int>)
    requires |next| == REGS && next[0] == 0
    ensures var sites := [Absolute(16), Based(0, 0)]; SitesOk(sites) && AllSafe(sites, next, Low(), All)
  {
    assert Where(Absolute(16), next) == 16 && Where(Based(0, 0), next) == 0;
  }

  lemma DispstatUnsafe()
    ensures !Safe(Low(), All, DISPSTAT)
  {
  }

  lemma ReusedAccepted()
    ensures Accepted(REUSED, 0) && Plain(REUSED, 0)
  {
    ReusedScan();
    ReusedSites();
  }

  lemma ReusedGoesRound(regs: seq<int>)
    requires |regs| == REGS
    ensures Round(Watch(), REUSED, regs)
  {
    ReusedRespects();
    ReusedPass(regs);
  }

  /** What a query at the head looks at after a pass, and what the next pass polls. */
  ghost predicate Misled(sites: seq<LoadSite>, next: seq<int>, used: seq<int>)
  {
    && |next| == |used| == REGS && SitesOk(sites) && AllSafe(sites, next, Low(), All)
    && |sites| > 1 && SiteOk(sites[1]) && Where(sites[1], used) == DISPSTAT && !Safe(Low(), All, DISPSTAT)
  }

  lemma ReusedMisled(next: seq<int>)
    requires |next| == REGS && next[0] == 0
    ensures Misled([Absolute(16), Based(0, 0)], next, next[0 := DISPSTAT])
  {
    ReusedLooks(next);
    DispstatUnsafe();
  }

  /** With memory below the I/O registers, every query at the head lets the loop be skipped: it
      looks at address 0, which the loop has just read out of DISPSTAT. The loop polls DISPSTAT,
      which may not be. */
  lemma ReusedBaseFools(regs: seq<int>)
    requires |regs| == REGS
    ensures Accepted(REUSED, 0) && Plain(REUSED, 0) && Round(Watch(), REUSED, regs)
    ensures var next := Pass(Watch(), REUSED, 0, regs).regs;
      Misled(Sites(REUSED, 0, 4), next, Reach(Watch(), REUSED, 0, 1, next))
  {
    ReusedAccepted();
    ReusedGoesRound(regs);
    ReusedSites();
    ReusedPass(regs);
    var next := regs[0 := 0][FLAGS := 4];
    ReusedPass(next);
    ReusedMisled(next);
  }
}
