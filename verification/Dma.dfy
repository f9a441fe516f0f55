/** A DMA channel of src/core/dma/dma.cpp: the plain pay-one-move-one transfer, and the fast
    form that pays for a run of units at once and copies it as a block.

    Addresses are counted in units (words, or halfwords for a 16-bit transfer), so every
    address is aligned; memory is one flat array of units. */
module Dma {
  import opened Basics
  import opened DmaCost

  const MAIN := 2       // mem::REGION_MAIN_RAM, as a tag of its own
  const BULK_MIN := 16
  const PAGE_BYTES := 0x800

  // ---- the burst tables -------------------------------------------------------

  datatype TableId = Dummy | Read16 | Read32N2 | Read32 | Write16 | Write32N2 | Write32

  /** Their run-length lists. */
  function Listing(t: TableId): (rle: seq<Run>)
    ensures forall k | 0 <= k < |rle| :: rle[k].cost > 0
  {
    match t
    case Dummy => []
    case Read16 => [Run(7, 1), Run(3, 1), Run(2, 117), Run(7, 1), Run(3, 1), Run(2, 117), Run(7, 1), Run(3, 1)]
    case Read32N2 => [Run(9, 1), Run(4, 1), Run(3, 77), Run(9, 1)]
    case Read32 => [Run(9, 1), Run(3, 1), Run(2, 116)]
    case Write16 => [Run(8, 1), Run(2, 119)]
    case Write32N2 => [Run(9, 1), Run(4, 59)]
    case Write32 => [Run(9, 1), Run(3, 79)]
  }

  function Pattern(t: TableId): (b: Burst)
    ensures WellFormed(b)
  {
    BurstOf(Listing(t))
  }

  // ---- configuration ----------------------------------------------------------

  /** Region and (non)sequential cost of a timing block. */
  datatype Timing = Timing(rgn: nat, n: nat, s: nat)

  /** What stays fixed for a transfer. `timing` is the cost table by timing block; `readable`
      and `writable` tell which pages the page tables map straight to memory; `pattern` holds
      the burst tables (`Pattern` above). */
  datatype Config = Config(a9: bool, word: bool, srcInc: int, dstInc: int, shift9: nat,
                           timing: int -> Timing, readable: int -> bool, writable: int -> bool,
                           pattern: TableId -> Burst)
  {
    function UnitBytes(): nat { if word then 4 else 2 }
    /** A timing block is 16 KB on the ARM9, 32 KB on the ARM7. */
    function BlockUnits(): nat { (if a9 then 0x4000 else 0x8000) / UnitBytes() }
    function PageUnits(): nat { PAGE_BYTES / UnitBytes() }
    function At(unit: int): Timing { timing(unit / BlockUnits()) }
    /** ARM9 cycles per bus cycle. */
    function Scale(): nat { if a9 then Pow2(shift9) else 1 }
  }

  /** What the code relies on of its tables. */
  ghost predicate TablesOk(cfg: Config) {
    forall t ::
      WellFormed(cfg.pattern(t)) && if t == Dummy then cfg.pattern(t).Len() == 0 else cfg.pattern(t).Len() >= 3
  }

  lemma RealTables(cfg: Config)
    requires cfg.pattern == Pattern
    ensures TablesOk(cfg)
  {
    forall t ensures if t == Dummy then Pattern(t).Len() == 0 else Pattern(t).Len() >= 3 {
      if t != Dummy { PatternOpens(t); }
    }
  }

  // ---- the plain transfer -------------------------------------------------------

  /** A transfer between two units. `first`: the next access is the first of a burst. */
  datatype State = State(src: int, dst: int, iter: nat, rem: nat, first: bool, table: TableId, pos: nat, mem: seq<nat>)

  /** A main-RAM end streamed forwards against some other region pays by burst table. */
  predicate Bursts(cfg: Config, st: Timing, dt: Timing) {
    || (st.rgn == MAIN && dt.rgn != MAIN && cfg.srcInc > 0)
    || (dt.rgn == MAIN && st.rgn != MAIN && cfg.dstInc > 0)
  }

  /** The table a burst that starts here would use. */
  function Selected(cfg: Config, st: Timing, dt: Timing): (t: TableId)
    ensures t != Dummy
  {
    if st.rgn == MAIN then (if !cfg.word then Read16 else if dt.n == 2 then Read32N2 else Read32)
    else if !cfg.word then Write16 else if st.n == 2 then Write32N2 else Write32
  }

  /** The cost of a unit outside bursts. */
  function FlatCost(cfg: Config, st: Timing, dt: Timing, src: int, first: bool): nat {
    if st.rgn == MAIN then
      if dt.rgn == MAIN then (if cfg.word then 18 else 16)
      else
        var low := (src * cfg.UnitBytes()) % 0x20;
        (if cfg.word then (if low == 0x1C then (if dt.n == 2 then 7 else 8) else 9)
         else (if low == 0x1E then 7 else 8)) + (if first then dt.n else dt.s)
    else if dt.rgn == MAIN then (if first then st.n else st.s) + (if cfg.word then 8 else 7)
    else if st.rgn == dt.rgn && st.rgn != 0 then st.n + dt.n + 1
    else if first then st.n + dt.n else st.s + dt.s
  }

  datatype Paid = Paid(cost: nat, table: TableId, pos: nat)

  /** `unit_cycles`: in a burst the table in force is kept until its end is reached, then
      chosen anew. */
  function UnitCycles(cfg: Config, s: State): Paid
    requires TablesOk(cfg)
  {
    var st, dt := cfg.At(s.src), cfg.At(s.dst);
    if Bursts(cfg, st, dt) then
      if s.first || s.pos >= cfg.pattern(s.table).Len() then
        Paid(cfg.pattern(Selected(cfg, st, dt)).cycle[0], Selected(cfg, st, dt), 1)
      else Paid(cfg.pattern(s.table).cycle[s.pos], s.table, s.pos + 1)
    else Paid(FlatCost(cfg, st, dt, s.src, s.first), s.table, s.pos)
  }

  /** Every table but the dummy has at least three entries; the first three are the listing's. */
  lemma PatternOpens(t: TableId)
    requires t != Dummy
    ensures var l, b := Listing(t), Pattern(t);
            && b.Len() >= 3 && b.cycle[0] == l[0].cost && b.cycle[1] == l[1].cost
            && b.cycle[2] == if l[1].count >= 2 then l[1].cost else l[2].cost
  {
    LongEnough(Listing(t));
  }

  lemma LongEnough(rle: seq<Run>)
    requires forall k | 0 <= k < |rle| :: rle[k].cost > 0
    requires |rle| >= 2 && rle[0].count == 1 && rle[1].count >= 1
    requires rle[1].count >= 2 || (|rle| >= 3 && rle[2].count >= 1)
    ensures BurstOf(rle).Len() >= 3
    ensures BurstOf(rle).cycle[0] == rle[0].cost && BurstOf(rle).cycle[1] == rle[1].cost
    ensures BurstOf(rle).cycle[2] == if rle[1].count >= 2 then rle[1].cost else rle[2].cost
  {
    assert Unroll(rle, 1) == Unroll(rle, 0) + Repeat(rle[0].cost, 1);
    assert Unroll(rle, 2) == Unroll(rle, 1) + Repeat(rle[1].cost, Min(rle[1].count, 254));
    if rle[1].count < 2 {
      assert Unroll(rle, 3) == Unroll(rle, 2) + Repeat(rle[2].cost, Min(rle[2].count, 253));
      UnrollKeeps(rle, 3, |rle|);
    } else {
      UnrollKeeps(rle, 2, |rle|);
    }
  }

  lemma {:induction false} UnrollKeeps(rle: seq<Run>, m: nat, n: nat)
    requires m <= n <= |rle|
    ensures Unroll(rle, m) <= Unroll(rle, n)
    decreases n
  {
    if m < n {
      UnrollKeeps(rle, m, n - 1);
      var s := Unroll(rle, n - 1);
      PrefixKept(Unroll(rle, m), s, Repeat(rle[n - 1].cost, Min(rle[n - 1].count, 255 - |s|)));
    }
  }

  lemma PrefixKept(a: seq<nat>, s: seq<nat>, t: seq<nat>)
    requires a <= s
    ensures a <= s + t
  {
  }

  /** A unit paid for. */
  function Charged(s: State, p: Paid): State { s.(first := false, table := p.table, pos := p.pos) }

  /** A unit moved. */
  function Move(cfg: Config, s: State): State
    requires s.iter > 0 && s.rem > 0 && 0 <= s.src < |s.mem| && 0 <= s.dst < |s.mem|
  {
    s.(src := s.src + cfg.srcInc, dst := s.dst + cfg.dstInc, iter := s.iter - 1, rem := s.rem - 1,
       mem := s.mem[s.dst := s.mem[s.src]])
  }

  /** Every unit of the transfer lies inside memory. */
  ghost predicate Inside(cfg: Config, size: nat, src: int, dst: int, n: nat)
    decreases n
  {
    n > 0 ==> 0 <= src < size && 0 <= dst < size && Inside(cfg, size, src + cfg.srcInc, dst + cfg.dstInc, n - 1)
  }

  ghost predicate Sound(cfg: Config, s: State) {
    s.iter <= s.rem && Inside(cfg, |s.mem|, s.src, s.dst, s.iter)
  }

  datatype Outcome = Outcome(s: State, used: nat)

  /** One unit: pay, then move. */
  function Unit(cfg: Config, o: Outcome): (r: Outcome)
    requires TablesOk(cfg) && Sound(cfg, o.s) && o.s.iter > 0
    ensures Sound(cfg, r.s) && r.s.iter == o.s.iter - 1 && |r.s.mem| == |o.s.mem|
  {
    var p := UnitCycles(cfg, o.s);
    Outcome(Move(cfg, Charged(o.s, p)), o.used + p.cost * cfg.Scale())
  }

  /** The plain loop: while units are left and the budget is not used up, one unit. */
  function Plain(cfg: Config, o: Outcome, budget: nat): (r: Outcome)
    requires TablesOk(cfg) && Sound(cfg, o.s)
    ensures Sound(cfg, r.s) && r.s.iter <= o.s.iter
    decreases o.s.iter
  {
    if o.s.iter == 0 || o.used >= budget then o else Plain(cfg, Unit(cfg, o), budget)
  }

  /** The loop entered with a unit already paid for: `direct_run` moves it, then goes on. */
  function PaidPlain(cfg: Config, o: Outcome, budget: nat): Outcome
    requires TablesOk(cfg) && Sound(cfg, o.s) && o.s.iter > 0
  {
    Plain(cfg, o.(s := Move(cfg, o.s)), budget)
  }

  // ---- runs -----------------------------------------------------------------------

  /** The n units from u on lie in u's page. */
  ghost predicate InPage(cfg: Config, u: int, n: nat) {
    u >= 0 && u % cfg.PageUnits() + n <= cfg.PageUnits()
  }

  lemma InPageNext(cfg: Config, u: int, n: nat)
    requires n > 1 && InPage(cfg, u, n)
    ensures InPage(cfg, u + 1, n - 1)
  {
    if cfg.word { NextIn512(u); } else { NextIn1024(u); }
  }

  lemma NextIn512(u: nat)
    requires u % 512 + 1 < 512
    ensures (u + 1) % 512 == u % 512 + 1
  {
  }

  lemma NextIn1024(u: nat)
    requires u % 1024 + 1 < 1024
    ensures (u + 1) % 1024 == u % 1024 + 1
  {
  }

  /** A run: the first unit is paid for, both ends count up, and the next n units of each stay
      in their pages. */
  ghost predicate InRun(cfg: Config, s: State, n: nat) {
    && cfg.srcInc == 1 && cfg.dstInc == 1 && !s.first
    && 1 <= n <= s.iter && InPage(cfg, s.src, n) && InPage(cfg, s.dst, n)
  }

  /** In a burst, the table in force is the one a wrap would select, part-way through. */
  ghost predicate TableFits(cfg: Config, s: State) {
    Bursts(cfg, cfg.At(s.src), cfg.At(s.dst)) ==>
      s.table == Selected(cfg, cfg.At(s.src), cfg.At(s.dst)) && s.pos <= cfg.pattern(s.table).Len()
  }

  /** `run_cost`. */
  function RunCostOf(cfg: Config, s: State): RunCost {
    var st, dt := cfg.At(s.src), cfg.At(s.dst);
    if Bursts(cfg, st, dt) then Table(cfg.pattern(s.table)) else Constant(FlatCost(cfg, st, dt, s.src, false))
  }

  lemma RunCostClosed(cfg: Config, s: State)
    requires TablesOk(cfg) && TableFits(cfg, s)
    ensures ClosedForm(RunCostOf(cfg, s), s.pos)
  {
  }

  /** A page lies in one timing block. */
  lemma SameBlock(cfg: Config, u: int, k: nat)
    requires u >= 0 && u % cfg.PageUnits() + k < cfg.PageUnits()
    ensures cfg.At(u + k) == cfg.At(u)
  {
    if cfg.word { PageInBlock(u, k, 512); } else { PageInBlock(u, k, 1024); }
  }

  lemma PageInBlock(u: nat, k: nat, page: nat)
    requires page in {512, 1024} && u % page + k < page
    ensures (u + k) / 0x1000 == u / 0x1000 && (u + k) / 0x2000 == u / 0x2000
    ensures page == 1024 ==> (u + k) / 0x4000 == u / 0x4000
  {
    if page == 512 {
      assert (u + k) / 512 == u / 512;
      assert u / 0x1000 == u / 512 / 8 && (u + k) / 0x1000 == (u + k) / 512 / 8;
      assert u / 0x2000 == u / 512 / 16 && (u + k) / 0x2000 == (u + k) / 512 / 16;
    } else {
      assert (u + k) / 1024 == u / 1024;
      assert u / 0x1000 == u / 1024 / 4 && (u + k) / 0x1000 == (u + k) / 1024 / 4;
      assert u / 0x2000 == u / 1024 / 8 && (u + k) / 0x2000 == (u + k) / 1024 / 8;
      assert u / 0x4000 == u / 1024 / 16 && (u + k) / 0x4000 == (u + k) / 1024 / 16;
    }
  }

  /** k units copied upwards one at a time. */
  function CopyUp(mem: seq<nat>, src: int, dst: int, k: nat): (m: seq<nat>)
    requires 0 <= src && src + k <= |mem| && 0 <= dst && dst + k <= |mem|
    ensures |m| == |mem|
  {
    if k == 0 then mem
    else
      var m := CopyUp(mem, src, dst, k - 1);
      m[dst + k - 1 := m[src + k - 1]]
  }

  /** With the ranges apart that is a block copy. */
  lemma {:induction false} CopyUpIsBlock(mem: seq<nat>, src: int, dst: int, k: nat)
    requires 0 <= src && src + k <= |mem| && 0 <= dst && dst + k <= |mem|
    requires src + k <= dst || dst + k <= src
    ensures CopyUp(mem, src, dst, k) == mem[..dst] + mem[src .. src + k] + mem[dst + k..]
  {
    if k > 0 {
      CopyUpIsBlock(mem, src, dst, k - 1);
      var m := mem[..dst] + mem[src .. src + k - 1] + mem[dst + k - 1..];
      assert m[src + k - 1] == mem[src + k - 1];
    }
  }

  /** Where a run of k units leaves things: the closed form. */
  function AfterRun(cfg: Config, o: Outcome, k: nat): Outcome
    requires TablesOk(cfg) && InRun(cfg, o.s, k) && TableFits(cfg, o.s)
    requires o.s.iter <= o.s.rem && o.s.src + k <= |o.s.mem| && o.s.dst + k <= |o.s.mem|
  {
    RunCostClosed(cfg, o.s);
    var rc := RunCostOf(cfg, o.s);
    Outcome(o.s.(src := o.s.src + k, dst := o.s.dst + k, iter := o.s.iter - k, rem := o.s.rem - k,
                 pos := EndPos(rc, o.s.pos, k - 1), mem := CopyUp(o.s.mem, o.s.src, o.s.dst, k)),
            o.used + Cost(rc, o.s.pos, k - 1) * cfg.Scale())
  }

  /** The closed form advances as the plain loop does, for as long as the run lasts. */
  lemma RunStep(cfg: Config, o: Outcome, k: nat)
    requires TablesOk(cfg) && k >= 1 && InRun(cfg, o.s, k + 1) && TableFits(cfg, o.s)
    requires o.s.iter <= o.s.rem && o.s.src + k < |o.s.mem| && o.s.dst + k < |o.s.mem|
    requires Sound(cfg, AfterRun(cfg, o, k).s)
    ensures Unit(cfg, AfterRun(cfg, o, k)) == AfterRun(cfg, o, k + 1)
  {
    SameBlock(cfg, o.s.src, k);
    SameBlock(cfg, o.s.dst, k);
    RunCostClosed(cfg, o.s);
    var rc := RunCostOf(cfg, o.s);
    var p := UnitCycles(cfg, AfterRun(cfg, o, k).s);
    NextUnitCost(rc, o.s.pos, k);
    ScaleSum(Cost(rc, o.s.pos, k - 1), p.cost, cfg.Scale());
  }

  lemma ScaleSum(a: nat, b: nat, scale: nat)
    ensures (a + b) * scale == a * scale + b * scale
  {
  }

  lemma NextUnitCost(rc: RunCost, pos: nat, k: nat)
    requires ClosedForm(rc, pos) && k >= 1
    ensures Cost(rc, pos, k) == Cost(rc, pos, k - 1) +
              match rc { case Constant(c) => c case Table(b) => Entry(b, EndPos(rc, pos, k - 1)) }
    ensures EndPos(rc, pos, k) == match rc { case Constant(_) => pos case Table(b) => After(b, EndPos(rc, pos, k - 1)) }
  {
    if rc.Constant? { assert rc.c * k == rc.c * (k - 1) + rc.c; }
  }

  lemma RunOfOne(cfg: Config, o: Outcome)
    requires TablesOk(cfg) && InRun(cfg, o.s, 1) && TableFits(cfg, o.s)
    requires o.s.iter <= o.s.rem && o.s.src + 1 <= |o.s.mem| && o.s.dst + 1 <= |o.s.mem|
    ensures AfterRun(cfg, o, 1) == o.(s := Move(cfg, o.s))
  {
    assert CopyUp(o.s.mem, o.s.src, o.s.dst, 1) == CopyUp(o.s.mem, o.s.src, o.s.dst, 0)[o.s.dst := o.s.mem[o.s.src]];
    assert Cost(RunCostOf(cfg, o.s), o.s.pos, 0) == 0;
  }

  /** One unit of a run more, while the budget allows it, is one turn of the plain loop. */
  lemma OneUnitMore(cfg: Config, o: Outcome, k: nat, budget: nat)
    requires TablesOk(cfg) && k >= 1 && InRun(cfg, o.s, k + 1) && TableFits(cfg, o.s)
    requires o.s.iter <= o.s.rem && o.s.src + k < |o.s.mem| && o.s.dst + k < |o.s.mem|
    requires Sound(cfg, AfterRun(cfg, o, k).s) && AfterRun(cfg, o, k).used < budget
    ensures Sound(cfg, AfterRun(cfg, o, k + 1).s)
    ensures Plain(cfg, AfterRun(cfg, o, k), budget) == Plain(cfg, AfterRun(cfg, o, k + 1), budget)
  {
    RunStep(cfg, o, k);
  }

  /** Payments so far stay within the budget that allows a unit more. */
  lemma StillAffordable(rc: RunCost, pos: nat, k: nat, used: nat, scale: nat, budget: nat)
    requires ClosedForm(rc, pos) && k >= 1 && Affordable(rc, pos, k + 1, used, scale, budget)
    ensures Affordable(rc, pos, k, used, scale, budget) && used + Cost(rc, pos, k - 1) * scale < budget
  {
    CostScales(rc, pos, k - 1, k, scale);
  }

  /** A run of k affordable units leaves the plain loop where the closed form says. */
  lemma {:induction false} RunIsPlain(cfg: Config, o: Outcome, k: nat, budget: nat)
    requires TablesOk(cfg) && Sound(cfg, o.s) && k >= 1 && InRun(cfg, o.s, k) && TableFits(cfg, o.s)
    requires o.s.src + k <= |o.s.mem| && o.s.dst + k <= |o.s.mem|
    requires ClosedForm(RunCostOf(cfg, o.s), o.s.pos)
    requires Affordable(RunCostOf(cfg, o.s), o.s.pos, k, o.used, cfg.Scale(), budget)
    ensures Sound(cfg, AfterRun(cfg, o, k).s)
    ensures PaidPlain(cfg, o, budget) == Plain(cfg, AfterRun(cfg, o, k), budget)
  {
    if k == 1 {
      RunOfOne(cfg, o);
    } else {
      StillAffordable(RunCostOf(cfg, o.s), o.s.pos, k - 1, o.used, cfg.Scale(), budget);
      RunIsPlain(cfg, o, k - 1, budget);
      OneUnitMore(cfg, o, k - 1, budget);
    }
  }

  // ---- over a whole transfer --------------------------------------------------------

  /** If unit u bursts, the table a wrap would select is T. */
  ghost predicate SteadyUnit(cfg: Config, u: int, delta: int, T: TableId) {
    Bursts(cfg, cfg.At(u), cfg.At(u + delta)) ==> Selected(cfg, cfg.At(u), cfg.At(u + delta)) == T
  }

  /** What a transfer that counts up at both ends must meet for the cost of its runs to be exact:
      every burst in it is of one table, and a burst under way is of that table already. */
  ghost predicate BurstSafe(cfg: Config, s: State, T: TableId) {
    cfg.srcInc == 1 && cfg.dstInc == 1 ==>
      && Steady(cfg, s.src, s.src + s.iter, s.dst - s.src, T)
      && (s.pos >= cfg.pattern(s.table).Len() || s.table == T)
  }

  /** ... and for its block copies to be copies: no run of it, within a page at both ends, overlaps
      itself. */
  ghost predicate Apart(cfg: Config, src: int, dst: int, n: nat) {
    cfg.srcInc == 1 && cfg.dstInc == 1 ==> RunsApart(cfg, src, src + n, dst - src)
  }

  ghost predicate RunsApart(cfg: Config, lo: int, hi: int, delta: int) {
    forall u, m: nat | lo <= u && 0 < m && u + m <= hi :: RunApart(cfg, u, delta, m)
  }

  ghost predicate RunApart(cfg: Config, u: int, delta: int, m: nat) {
    InPage(cfg, u, m) && InPage(cfg, u + delta, m) ==> m <= delta || m <= -delta
  }

  function Page(cfg: Config): (p: nat)
    ensures p == cfg.PageUnits() && (p == 512 || p == 1024)
  {
    if cfg.word then 512 else 1024
  }

  lemma HalfOf512(u: nat, v: nat, m: nat)
    requires u % 512 + m <= 512 && v % 512 + m <= 512 && u + 256 <= v
    ensures m <= v - u
  {
    if v - u < 512 { assert v / 512 == u / 512 || v / 512 == u / 512 + 1; }
  }

  lemma HalfOf1024(u: nat, v: nat, m: nat)
    requires u % 1024 + m <= 1024 && v % 1024 + m <= 1024 && u + 512 <= v
    ensures m <= v - u
  {
    if v - u < 1024 { assert v / 1024 == u / 1024 || v / 1024 == u / 1024 + 1; }
  }

  /** Shifted by half a page or more, no run overlaps itself. */
  lemma HalfPageApart(cfg: Config, u: int, delta: int, m: nat)
    requires cfg.PageUnits() / 2 <= delta || cfg.PageUnits() / 2 <= -delta
    ensures RunApart(cfg, u, delta, m)
  {
    if InPage(cfg, u, m) && InPage(cfg, u + delta, m) {
      var lo, hi := if delta < 0 then u + delta else u, if delta < 0 then u else u + delta;
      if cfg.word { HalfOf512(lo, hi, m); } else { HalfOf1024(lo, hi, m); }
    }
  }

  /** Shifted by less, the run at the start of a page does. */
  lemma CloserOverlaps(cfg: Config, delta: int)
    requires -(cfg.PageUnits() / 2) < delta < cfg.PageUnits() / 2
    ensures exists u, m: nat :: 0 < m && !RunApart(cfg, u, delta, m)
  {
    var p, d := Page(cfg), if delta < 0 then -delta else delta;
    var u := if delta < 0 then d else 0;
    assert InPage(cfg, u, p - d) && InPage(cfg, u + delta, p - d);
    assert !RunApart(cfg, u, delta, p - d);
  }

  /** A shift keeps every run apart exactly when it is half a page or more. */
  lemma ShiftExact(cfg: Config, delta: int)
    ensures (forall u, m: nat | 0 < m :: RunApart(cfg, u, delta, m)) <==>
      (cfg.PageUnits() / 2 <= delta || cfg.PageUnits() / 2 <= -delta)
  {
    if cfg.PageUnits() / 2 <= delta || cfg.PageUnits() / 2 <= -delta {
      forall u, m: nat | 0 < m ensures RunApart(cfg, u, delta, m) {
        HalfPageApart(cfg, u, delta, m);
      }
    } else {
      CloserOverlaps(cfg, delta);
    }
  }

  /** A transfer between ranges that are apart, or half a page apart, meets the condition. */
  lemma FarIsApart(cfg: Config, src: int, dst: int, n: nat)
    requires src + n <= dst || dst + n <= src || cfg.PageUnits() / 2 <= dst - src || cfg.PageUnits() / 2 <= src - dst
    ensures Apart(cfg, src, dst, n)
  {
    var delta := dst - src;
    forall u, m: nat | src <= u && 0 < m && u + m <= src + n ensures RunApart(cfg, u, delta, m) {
      if cfg.PageUnits() / 2 <= delta || cfg.PageUnits() / 2 <= -delta { HalfPageApart(cfg, u, delta, m); }
    }
  }

  /** What is left of a transfer, k units on. */
  lemma ApartNext(cfg: Config, src: int, dst: int, n: nat, k: nat)
    requires Apart(cfg, src, dst, n) && k <= n
    ensures cfg.srcInc == 1 && cfg.dstInc == 1 ==> Apart(cfg, src + k, dst + k, n - k)
  {
    assert (dst + k) - (src + k) == dst - src;
  }

  ghost predicate Steady(cfg: Config, lo: int, hi: int, delta: int, T: TableId) {
    forall u | lo <= u < hi :: SteadyUnit(cfg, u, delta, T)
  }

  lemma BurstSafeNext(cfg: Config, s: State, t: State, T: TableId, k: nat)
    requires BurstSafe(cfg, s, T) && k <= s.iter && cfg.srcInc == 1 && cfg.dstInc == 1
    requires t.src == s.src + k && t.dst == s.dst + k && t.iter == s.iter - k
    requires t.pos >= cfg.pattern(t.table).Len() || t.table == T
    ensures BurstSafe(cfg, t, T)
  {
  }

  /** Paying for a unit makes the table fit. */
  lemma PayingFits(cfg: Config, s: State, T: TableId)
    requires TablesOk(cfg) && BurstSafe(cfg, s, T) && s.iter > 0 && cfg.srcInc == 1 && cfg.dstInc == 1
    ensures TableFits(cfg, Charged(s, UnitCycles(cfg, s)))
    ensures BurstSafe(cfg, Charged(s, UnitCycles(cfg, s)), T)
  {
    assert SteadyUnit(cfg, s.src, s.dst - s.src, T);
  }
}
