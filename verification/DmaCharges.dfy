/** What src/core/dma/dma.cpp charges for a unit, in numbers: outside bursts by region, width and
    direction, inside them by the period of the table in force. */
module DmaCharges {
  import opened Basics
  import opened DmaCost
  import opened Dma

  // ---- the periods ----------------------------------------------------------------------------

  lemma OneRun(rle: seq<Run>, n: nat, s: seq<nat>)
    requires n < |rle| && Unroll(rle, n) == s && |s| + rle[n].count <= 255
    ensures Unroll(rle, n + 1) == s + Repeat(rle[n].cost, rle[n].count)
  {
  }

  lemma Once(c: nat)
    ensures Repeat(c, 1) == [c]
  {
    assert Repeat(c, 0) == [];
  }

  /** One entry, one more, and a run of a third kind. */
  lemma ThreeRuns(rle: seq<Run>, m: nat, s: seq<nat>, a: nat, b: nat, c: nat, n: nat)
    requires m + 3 <= |rle| && rle[m] == Run(a, 1) && rle[m + 1] == Run(b, 1) && rle[m + 2] == Run(c, n)
    requires Unroll(rle, m) == s && |s| + n <= 253
    ensures Unroll(rle, m + 3) == s + [a, b] + Repeat(c, n)
  {
    Once(a);
    Once(b);
    OneRun(rle, m, s);
    OneRun(rle, m + 1, s + [a]);
    assert s + [a] + [b] == s + [a, b];
    OneRun(rle, m + 2, s + [a, b]);
  }

  lemma FirstThree(rle: seq<Run>, a: nat, b: nat, c: nat, n: nat)
    requires 3 <= |rle| && rle[0] == Run(a, 1) && rle[1] == Run(b, 1) && rle[2] == Run(c, n) && n <= 253
    ensures Unroll(rle, 3) == [a, b] + Repeat(c, n)
  {
    ThreeRuns(rle, 0, [], a, b, c, n);
    assert [] + [a, b] == [a, b];
  }

  lemma TwoRuns(rle: seq<Run>, a: nat, c: nat, n: nat)
    requires |rle| >= 2 && rle[0] == Run(a, 1) && rle[1] == Run(c, n) && n <= 254
    ensures Unroll(rle, 2) == [a] + Repeat(c, n)
  {
    Once(a);
    assert Unroll(rle, 0) == [];
    OneRun(rle, 0, []);
    assert [] + [a] == [a];
    OneRun(rle, 1, [a]);
  }

  lemma CycleIs(t: TableId, l: seq<Run>)
    requires l == Listing(t)
    ensures Pattern(t).cycle == Unroll(l, |l|)
  {
  }

  /** Halfwords out of main RAM: 7, 3 and 117 times 2, all of it again, and 7, 3. */
  lemma SixRuns(l: seq<Run>, p: seq<nat>)
    requires |l| == 8 && l[0] == l[3] == l[6] == Run(7, 1) && l[1] == l[4] == l[7] == Run(3, 1)
    requires l[2] == l[5] == Run(2, 117) && p == [7, 3] + Repeat(2, 117)
    ensures Unroll(l, 6) == p + p
  {
    FirstThree(l, 7, 3, 2, 117);
    ThreeRuns(l, 3, p, 7, 3, 2, 117);
    assert p + [7, 3] + Repeat(2, 117) == p + p;
  }

  lemma EightRuns(l: seq<Run>, p: seq<nat>)
    requires |l| == 8 && l[0] == l[3] == l[6] == Run(7, 1) && l[1] == l[4] == l[7] == Run(3, 1)
    requires l[2] == l[5] == Run(2, 117) && p == [7, 3] + Repeat(2, 117)
    ensures Unroll(l, 8) == p + p + [7, 3]
  {
    SixRuns(l, p);
    Once(7);
    Once(3);
    OneRun(l, 6, p + p);
    OneRun(l, 7, p + p + [7]);
    assert p + p + [7] + [3] == p + p + [7, 3];
  }

  lemma Read16Period(i: nat)
    requires i < 240
    ensures Pattern(Read16).Len() == 240
    ensures Pattern(Read16).cycle[i] == if i % 119 == 0 then 7 else if i % 119 == 1 then 3 else 2
  {
    var l := Listing(Read16);
    EightRuns(l, [7, 3] + Repeat(2, 117));
    CycleIs(Read16, l);
    TwiceAndTwo(Repeat(2, 117), i);
  }

  lemma TwiceAndTwo(r: seq<nat>, i: nat)
    requires |r| == 117 && (forall k | 0 <= k < 117 :: r[k] == 2) && i < 240
    ensures var p := [7, 3] + r;
      |p + p + [7, 3]| == 240 &&
      (p + p + [7, 3])[i] == if i % 119 == 0 then 7 else if i % 119 == 1 then 3 else 2
  {
    var p := [7, 3] + r;
    var s := p + p + [7, 3];
    if i < 119 {
      assert s[i] == p[i];
    } else if i < 238 {
      assert s[i] == p[i - 119];
    } else {
      assert s[i] == [7, 3][i - 238];
    }
  }

  /** A period of n entries: the first, the second, and the others. */
  ghost predicate Period(b: Burst, n: nat, first: nat, second: nat, others: nat) {
    b.Len() == n >= 3 && b.cycle[0] == first && b.cycle[1] == second && forall i | 2 <= i < n :: b.cycle[i] == others
  }

  lemma FourRuns(l: seq<Run>)
    requires l == [Run(9, 1), Run(4, 1), Run(3, 77), Run(9, 1)]
    ensures Unroll(l, 4) == [9, 4] + Repeat(3, 77) + [9]
  {
    FirstThree(l, 9, 4, 3, 77);
    Once(9);
    OneRun(l, 3, [9, 4] + Repeat(3, 77));
  }

  /** 9, 4, 77 times 3, and 9 again. */
  ghost predicate NineAgain(s: seq<nat>) {
    |s| == 80 && s[0] == 9 && s[1] == 4 && (forall i | 2 <= i < 79 :: s[i] == 3) && s[79] == 9
  }

  lemma NineAgainIs(r: seq<nat>)
    requires |r| == 77 && forall k | 0 <= k < 77 :: r[k] == 3
    ensures NineAgain([9, 4] + r + [9])
  {
  }

  /** Words out of main RAM, to a region of two-cycle accesses. */
  lemma Read32N2Period()
    ensures NineAgain(Pattern(Read32N2).cycle)
  {
    var l := Listing(Read32N2);
    FourRuns(l);
    CycleIs(Read32N2, l);
    NineAgainIs(Repeat(3, 77));
  }

  /** ... and to the others. */
  lemma Read32Period()
    ensures Period(Pattern(Read32), 118, 9, 3, 2)
  {
    var l := Listing(Read32);
    FirstThree(l, 9, 3, 2, 116);
    CycleIs(Read32, l);
  }

  lemma TwoRunsOf(t: TableId, a: nat, c: nat, n: nat)
    requires Listing(t) == [Run(a, 1), Run(c, n)] && 2 <= n <= 254
    ensures Period(Pattern(t), n + 1, a, c, c)
  {
    var l := Listing(t);
    TwoRuns(l, a, c, n);
    CycleIs(t, l);
  }

  /** Into main RAM: halfwords, words from a region of two-cycle accesses, and words from the others. */
  lemma Write16Period()
    ensures Period(Pattern(Write16), 120, 8, 2, 2)
  {
    TwoRunsOf(Write16, 8, 2, 119);
  }

  lemma Write32N2Period()
    ensures Period(Pattern(Write32N2), 60, 9, 4, 4)
  {
    TwoRunsOf(Write32N2, 9, 4, 59);
  }

  lemma Write32Period()
    ensures Period(Pattern(Write32), 80, 9, 3, 3)
  {
    TwoRunsOf(Write32, 9, 3, 79);
  }

  // ---- one unit ----------------------------------------------------------------------------------

  /** A unit between two ends in main RAM: 18 cycles a word, 16 a halfword, whatever came before. */
  lemma MainToMain(cfg: Config, s: State)
    requires TablesOk(cfg) && cfg.At(s.src).rgn == 2 && cfg.At(s.dst).rgn == 2
    ensures UnitCycles(cfg, s) == Paid(if cfg.word then 18 else 16, s.table, s.pos)
  {
  }

  /** The last word, and the last halfword, of a 32-byte line. */
  lemma WordTail(u: int)
    ensures (u * 4) % 32 == 28 <==> u % 8 == 7
  {
    assert u * 4 == 32 * (u / 8) + 4 * (u % 8);
  }

  lemma HalfwordTail(u: int)
    ensures (u * 2) % 32 == 30 <==> u % 16 == 15
  {
    assert u * 2 == 32 * (u / 16) + 2 * (u % 16);
  }

  /** Out of main RAM downwards or standing still: 9 a word and 8 a halfword, less in the last unit of
      a 32-byte line, and the other end's own access. */
  lemma OutOfMain(cfg: Config, s: State)
    requires TablesOk(cfg) && cfg.At(s.src).rgn == 2 && cfg.At(s.dst).rgn != 2 && cfg.srcInc <= 0
    ensures var d := cfg.At(s.dst);
      UnitCycles(cfg, s) == Paid(
        (if s.first then d.n else d.s) +
        if cfg.word then if s.src % 8 != 7 then 9 else if d.n == 2 then 7 else 8
        else if s.src % 16 != 15 then 8 else 7, s.table, s.pos)
  {
    if cfg.word { WordTail(s.src); } else { HalfwordTail(s.src); }
  }

  /** Into main RAM downwards or standing still: the other end's access, and 8 a word or 7 a halfword. */
  lemma IntoMain(cfg: Config, s: State)
    requires TablesOk(cfg) && cfg.At(s.dst).rgn == 2 && cfg.At(s.src).rgn != 2 && cfg.dstInc <= 0
    ensures var d := cfg.At(s.src);
      UnitCycles(cfg, s) == Paid((if s.first then d.n else d.s) + (if cfg.word then 8 else 7), s.table, s.pos)
  {
  }

  /** Without main RAM: within one region but region 0 both first accesses and a cycle more; otherwise
      both accesses, first ones or sequential. */
  lemma BesidesMain(cfg: Config, s: State)
    requires TablesOk(cfg) && cfg.At(s.dst).rgn != 2 && cfg.At(s.src).rgn != 2
    ensures var a, d := cfg.At(s.src), cfg.At(s.dst);
      UnitCycles(cfg, s) == Paid(
        if a.rgn == d.rgn > 0 then a.n + d.n + 1 else if s.first then a.n + d.n else a.s + d.s, s.table, s.pos)
  {
  }

  /** Upwards out of main RAM or into it: the next entry of the table in force, or, at the start of a
      burst and at a table's end, the first entry of the table for the width and the other end. */
  lemma Streamed(cfg: Config, s: State)
    requires TablesOk(cfg)
    requires var a, d := cfg.At(s.src).rgn, cfg.At(s.dst).rgn;
      (a == 2 && d != 2 && cfg.srcInc > 0) || (d == 2 && a != 2 && cfg.dstInc > 0)
    ensures var p := UnitCycles(cfg, s);
      if !s.first && s.pos < cfg.pattern(s.table).Len() then
        p == Paid(cfg.pattern(s.table).cycle[s.pos], s.table, s.pos + 1)
      else
        && p.pos == 1 && p.cost == cfg.pattern(p.table).cycle[0]
        && p.table == if cfg.At(s.src).rgn == 2 then
             if !cfg.word then Read16 else if cfg.At(s.dst).n == 2 then Read32N2 else Read32
           else
             if !cfg.word then Write16 else if cfg.At(s.src).n == 2 then Write32N2 else Write32
  {
  }

  // ---- stretches ----------------------------------------------------------------------------------

  /** The cyclic walk from a table's start: unit k costs entry k modulo the period. */
  lemma {:induction false} WalkIsCyclic(b: Burst, k: nat)
    requires b.Len() > 0
    ensures Entry(b, WalkEnd(b, 0, k)) == b.cycle[k % b.Len()]
    ensures After(b, WalkEnd(b, 0, k)) == k % b.Len() + 1
  {
    if k > 0 {
      WalkIsCyclic(b, k - 1);
      DivModNext(k - 1, b.Len());
    }
  }
}
