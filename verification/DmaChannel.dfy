/** `Dma::unit_cycles`, `direct_run` and `run_channel_impl` of src/core/dma/dma.cpp on a channel
    that updates its own fields and the memory it transfers over. */
module DmaChannel {
  import opened Basics
  import opened DmaCost
  import opened Dma

  const NO_KEY := -1

  class Channel {
    const cfg: Config
    const ram: array<nat>
    var curSrc: int
    var curDst: int
    var iterCount: nat
    var remCount: nat
    var running: nat           // 0 idle, 1 running, 2 running and at the first access of a burst
    var table: TableId
    var pos: nat
    // Unit timing of the blocks the two ends are in.
    var keySrc: int
    var keyDst: int
    var srcT: Timing
    var dstT: Timing

    /** The timing cache holds what the tables say of the blocks it names. */
    ghost predicate Valid()
      reads this
    {
      && TablesOk(cfg)
      && (keySrc != NO_KEY ==> srcT == cfg.timing(keySrc))
      && (keyDst != NO_KEY ==> dstT == cfg.timing(keyDst))
    }

    /** ... and names the blocks the two ends are in now. */
    ghost predicate Cached()
      reads this
    {
      keySrc == curSrc / cfg.BlockUnits() && keyDst == curDst / cfg.BlockUnits() && keySrc != NO_KEY && keyDst != NO_KEY
    }

    ghost function St(first: bool): State
      reads this, ram
    {
      State(curSrc, curDst, iterCount, remCount, first, table, pos, ram[..])
    }

    /** A channel started by `Dma::start`: no burst under way, and `count` units to do, those of the
        control word or, of a transfer under way, those it has left. */
    constructor (cfg: Config, ram: array<nat>, src: int, dst: int, count: nat)
      requires TablesOk(cfg)
      ensures Valid() && this.cfg == cfg && this.ram == ram && running == 2
      ensures St(true) == State(src, dst, count, count, true, Dummy, 0, ram[..])
    {
      this.cfg, this.ram := cfg, ram;
      curSrc, curDst, iterCount, remCount := src, dst, count, count;
      running, table, pos := 2, Dummy, 0;
      keySrc, keyDst := NO_KEY, NO_KEY;
      srcT, dstT := Timing(0, 0, 0), Timing(0, 0, 0);
    }

    /** The timing cache is refilled when an end has left its block. */
    method RefillTiming()
      requires Valid() && 0 <= curSrc && 0 <= curDst
      modifies this`keySrc, this`keyDst, this`srcT, this`dstT
      ensures Valid() && Cached() && srcT == cfg.At(curSrc) && dstT == cfg.At(curDst)
    {
      if keySrc != curSrc / cfg.BlockUnits() {
        keySrc := curSrc / cfg.BlockUnits();
        srcT := cfg.timing(keySrc);
      }
      if keyDst != curDst / cfg.BlockUnits() {
        keyDst := curDst / cfg.BlockUnits();
        dstT := cfg.timing(keyDst);
      }
    }

    /** Pay for one unit. */
    method PayUnit(first: bool) returns (cost: nat)
      requires Valid() && 0 <= curSrc && 0 <= curDst
      modifies this`keySrc, this`keyDst, this`srcT, this`dstT, this`table, this`pos
      ensures Valid()
      ensures Cached()
      ensures cost == UnitCycles(cfg, old(St(first))).cost
      ensures St(false) == Charged(old(St(first)), UnitCycles(cfg, old(St(first))))
    {
      RefillTiming();
      if Bursts(cfg, srcT, dstT) {
        if first || pos >= cfg.pattern(table).Len() {
          pos := 0;
          table := Selected(cfg, srcT, dstT);
        }
        cost := cfg.pattern(table).cycle[pos];
        pos := pos + 1;
      } else {
        cost := FlatCost(cfg, srcT, dstT, curSrc, first);
      }
    }

    /** memcpy between ranges that are apart. */
    method CopyBlock(n: nat)
      requires 0 <= curSrc && curSrc + n <= ram.Length && 0 <= curDst && curDst + n <= ram.Length
      requires curSrc + n <= curDst || curDst + n <= curSrc
      modifies ram
      ensures ram[..] == CopyUp(old(ram[..]), curSrc, curDst, n)
    {
      forall k | 0 <= k < n {
        ram[curDst + k] := ram[curSrc + k];
      }
      CopyUpIsBlock(old(ram[..]), curSrc, curDst, n);
    }

    /** The state of the plain loop this channel is in, `used` cycles into its budget. */
    ghost function Out(first: bool, used: nat): Outcome
      reads this, ram
    {
      Outcome(St(first), used)
    }

    /** Pages of both ends direct: how many units stay in them. */
    function Room(): (room: nat)
      requires 0 <= curSrc && 0 <= curDst
      reads this
      ensures 1 <= room && InPage(cfg, curSrc, room) && InPage(cfg, curDst, room)
    {
      var page := cfg.PageUnits();
      Min(page - curSrc % page, page - curDst % page)
    }

    /** What holds between paying for a unit and moving it. */
    ghost predicate Paid(T: TableId)
      reads this, ram
    {
      && Valid() && Cached() && iterCount > 0
      && Sound(cfg, St(false)) && BurstSafe(cfg, St(false), T)
    }

    /** What holds between moving a unit and paying for the next. */
    ghost predicate Idle(T: TableId)
      reads this, ram
    {
      Valid() && Sound(cfg, St(false)) && BurstSafe(cfg, St(false), T)
    }

    /** Both ends have counted up by the units taken. */
    ghost predicate Advanced(src: int, dst: int, n: nat)
      reads this
    {
      iterCount < n && curSrc - src == curDst - dst == n - iterCount
    }

    /** `run_cost`, from the cached timing. */
    method ThisRunCost(ghost T: TableId) returns (rc: RunCost)
      requires Paid(T)
      ensures rc == RunCostOf(cfg, St(false))
    {
      rc := if Bursts(cfg, srcT, dstT) then Table(cfg.pattern(table))
            else Constant(FlatCost(cfg, srcT, dstT, curSrc, false));
    }

    /** The bulk form: up to n units of one run, as many as the budget cannot cut short, in one
        copy. Runs of fewer than two such units are left alone. */
    method BulkRun(rc: RunCost, n: nat, used: nat, budget: nat, ghost T: TableId) returns (moved: bool, used': nat)
      requires Paid(T) && TableFits(cfg, St(false)) && InRun(cfg, St(false), n)
      requires rc == RunCostOf(cfg, St(false)) && Apart(cfg, curSrc, curDst, iterCount)
      modifies this`curSrc, this`curDst, this`iterCount, this`remCount, this`pos, ram
      ensures !moved ==> used' == used && unchanged(this) && unchanged(ram)
      ensures moved ==> Idle(T) && Advanced(old(curSrc), old(curDst), old(iterCount))
      ensures moved ==> Plain(cfg, Out(false, used'), budget) == PaidPlain(cfg, old(Out(false, used)), budget)
    {
      moved, used' := false, used;
      RunCostClosed(cfg, St(false));
      if n < BULK_MIN {
        return;
      }
      var lo := Cut(rc, pos, n, used, cfg.Scale(), budget);
      if lo < 2 {
        return;
      }
      BulkRunIsPlain(cfg, Out(false, used), lo, budget, T);
      used' := TakeUnits(rc, lo, used);
      moved := true;
    }

    /** The next k units of a run in one go. */
    method TakeUnits(rc: RunCost, k: nat, used: nat) returns (used': nat)
      requires Valid() && TableFits(cfg, St(false)) && InRun(cfg, St(false), k)
      requires rc == RunCostOf(cfg, St(false)) && ClosedForm(rc, pos)
      requires iterCount <= remCount && curSrc + k <= ram.Length && curDst + k <= ram.Length
      requires curSrc + k <= curDst || curDst + k <= curSrc
      modifies this`curSrc, this`curDst, this`iterCount, this`remCount, this`pos, ram
      ensures Valid() && Out(false, used') == AfterRun(cfg, old(Out(false, used)), k)
    {
      var cost, end := BulkCost(rc, pos, k - 1);
      used' := used + cost * cfg.Scale();
      CopyBlock(k);
      pos := end;
      curSrc, curDst := curSrc + k, curDst + k;
      iterCount, remCount := iterCount - k, remCount - k;
    }

    method MoveUnit()
      requires Valid() && iterCount > 0 && Sound(cfg, St(false))
      modifies this`curSrc, this`curDst, this`iterCount, this`remCount, ram
      ensures Valid() && St(false) == Move(cfg, old(St(false)))
    {
      ram[curDst] := ram[curSrc];
      curSrc, curDst := curSrc + cfg.srcInc, curDst + cfg.dstInc;
      iterCount, remCount := iterCount - 1, remCount - 1;
    }

    /** `RunCost::next`. */
    method NextCost(rc: RunCost) returns (cost: nat)
      requires Valid() && TableFits(cfg, St(false)) && rc == RunCostOf(cfg, St(false))
      modifies this`pos
      ensures Valid() && cost == UnitCycles(cfg, old(St(false))).cost
      ensures St(false) == Charged(old(St(false)), UnitCycles(cfg, old(St(false))))
      ensures TableFits(cfg, St(false))
    {
      match rc
      case Constant(c) => cost := c;
      case Table(b) =>
        if pos >= b.Len() {
          pos := 0;
        }
        cost := b.cycle[pos];
        pos := pos + 1;
    }

    /** Inside a run, the current unit paid for, `room` units left in the pages. */
    ghost predicate Running(rc: RunCost, room: nat, T: TableId)
      reads this, ram
    {
      && Valid() && iterCount > 0 && Sound(cfg, St(false)) && BurstSafe(cfg, St(false), T)
      && InUnitRun(cfg, St(false), room) && rc == RunCostOf(cfg, St(false))
    }

    /** A paid unit of a run moved. */
    method MoveInRun(rc: RunCost, room: nat, ghost used: nat, ghost budget: nat, ghost T: TableId)
      requires Running(rc, room, T)
      modifies this`curSrc, this`curDst, this`iterCount, this`remCount, ram
      ensures Idle(T) && iterCount == old(iterCount) - 1 && Advanced(old(curSrc), old(curDst), old(iterCount))
      ensures room > 1 ==> InUnitRun(cfg, St(false), room - 1) && rc == RunCostOf(cfg, St(false))
      ensures Plain(cfg, Out(false, used), budget) == PaidPlain(cfg, old(Out(false, used)), budget)
    {
      MovedInRun(cfg, St(false), room, T);
      MoveUnit();
    }

    /** The next unit of a run paid for. */
    method PayInRun(rc: RunCost, room: nat, used: nat, ghost budget: nat, ghost T: TableId) returns (used': nat)
      requires Idle(T) && iterCount > 0 && InUnitRun(cfg, St(false), room) && rc == RunCostOf(cfg, St(false))
      requires used < budget
      modifies this`pos
      ensures Running(rc, room, T)
      ensures PaidPlain(cfg, Out(false, used'), budget) == Plain(cfg, old(Out(false, used)), budget)
    {
      PaidInRun(cfg, Out(false, used), room, T, budget);
      ghost var p := UnitCycles(cfg, St(false));
      ghost var next := Outcome(Charged(St(false), p), used + p.cost * cfg.Scale());
      var cost := NextCost(rc);
      used' := used + cost * cfg.Scale();
      assert Out(false, used') == next;
    }

    /** The same run one unit at a time, for runs too short for the bulk form. */
    method UnitRun(rc: RunCost, pages: nat, used: nat, budget: nat, ghost T: TableId) returns (used': nat)
      requires Running(rc, pages, T)
      modifies this`curSrc, this`curDst, this`iterCount, this`remCount, this`pos, ram
      ensures Idle(T) && Advanced(old(curSrc), old(curDst), old(iterCount))
      ensures Plain(cfg, Out(false, used'), budget) == PaidPlain(cfg, old(Out(false, used)), budget)
    {
      used' := used;
      var room := pages;
      ghost var goal := PaidPlain(cfg, Out(false, used), budget);
      while true
        invariant room >= 1 && Running(rc, room, T)
        invariant iterCount <= old(iterCount)
        invariant curSrc - old(curSrc) == curDst - old(curDst) == old(iterCount) - iterCount
        invariant PaidPlain(cfg, Out(false, used'), budget) == goal
        decreases room
      {
        MoveInRun(rc, room, used', budget, T);
        room := room - 1;
        if room == 0 || iterCount == 0 || used' >= budget {
          break;
        }
        used' := PayInRun(rc, room, used', budget, T);
      }
    }

    /** `direct_run`, the current unit already paid for: false leaves the unit to the caller,
        true has moved at least that unit and left the rest as the plain loop would. */
    method DirectRun(used: nat, budget: nat, noRunBelow: int, ghost T: TableId)
      returns (moved: bool, used': nat, below: int)
      requires Paid(T) && (cfg.srcInc == 1 && cfg.dstInc == 1 ==> TableFits(cfg, St(false)))
      requires Apart(cfg, curSrc, curDst, iterCount)
      modifies this`curSrc, this`curDst, this`iterCount, this`remCount, this`pos, ram
      ensures !moved ==> used' == used && unchanged(this) && unchanged(ram)
      ensures moved ==> Idle(T) && Advanced(old(curSrc), old(curDst), old(iterCount))
      ensures moved ==> Plain(cfg, Out(false, used'), budget) == PaidPlain(cfg, old(Out(false, used)), budget)
    {
      moved, used', below := false, used, noRunBelow;
      if cfg.srcInc != 1 || cfg.dstInc != 1 || curDst < noRunBelow {
        return;
      }
      SoundRange(cfg, St(false));
      var page := cfg.PageUnits();
      if !cfg.readable(curSrc / page) || !cfg.writable(curDst / page) {
        below := (curDst / page + 1) * page;
        return;
      }
      var room := Room();
      var rc := ThisRunCost(T);
      moved, used' := BulkRun(rc, Min(room, iterCount), used, budget, T);
      if !moved {
        used' := UnitRun(rc, room, used, budget, T);
        moved := true;
      }
    }

    /** What holds at the head of the channel loop. */
    ghost predicate Ready(first: bool, T: TableId)
      reads this, ram
    {
      Valid() && Sound(cfg, St(first)) && BurstSafe(cfg, St(first), T) && Apart(cfg, curSrc, curDst, iterCount)
    }

    /** The next unit of the channel loop paid for. */
    method PayNext(first: bool, used: nat, ghost budget: nat, ghost T: TableId) returns (used': nat)
      requires Ready(first, T) && iterCount > 0 && used < budget
      modifies this`keySrc, this`keyDst, this`srcT, this`dstT, this`table, this`pos
      ensures Paid(T) && (cfg.srcInc == 1 && cfg.dstInc == 1 ==> TableFits(cfg, St(false)))
      ensures PaidPlain(cfg, Out(false, used'), budget) == Plain(cfg, old(Out(first, used)), budget)
    {
      ghost var o := Out(first, used);
      SoundStart(cfg, o.s);
      PayThenMove(cfg, o, budget, T);
      var cost := PayUnit(first);
      used' := used + cost * cfg.Scale();
      assert Out(false, used')
          == Outcome(Charged(o.s, UnitCycles(cfg, o.s)), o.used + UnitCycles(cfg, o.s).cost * cfg.Scale());
    }

    /** A paid unit moved on its own. */
    method MoveAlone(ghost used: nat, ghost budget: nat, ghost T: TableId)
      requires Paid(T)
      modifies this`curSrc, this`curDst, this`iterCount, this`remCount, ram
      ensures Idle(T) && iterCount == old(iterCount) - 1
      ensures curSrc == old(curSrc) + cfg.srcInc && curDst == old(curDst) + cfg.dstInc
      ensures Plain(cfg, Out(false, used), budget) == PaidPlain(cfg, old(Out(false, used)), budget)
    {
      MoveKeepsSafe(cfg, St(false), T);
      MoveUnit();
    }

    /** One turn of the channel loop: a unit paid for, and moved with as many after it as go in one
        run. */
    method Turn(first: bool, used: nat, budget: nat, noRunBelow: int, ghost T: TableId) returns (used': nat, below: int)
      requires Ready(first, T) && iterCount > 0 && used < budget
      modifies this`keySrc, this`keyDst, this`srcT, this`dstT, this`table, this`pos, this`curSrc, this`curDst,
               this`iterCount, this`remCount, ram
      ensures Ready(false, T) && iterCount < old(iterCount)
      ensures Plain(cfg, Out(false, used'), budget) == Plain(cfg, old(Out(first, used)), budget)
    {
      ghost var src, dst, n := curSrc, curDst, iterCount;
      used' := PayNext(first, used, budget, T);
      var moved;
      moved, used', below := DirectRun(used', budget, noRunBelow, T);
      if !moved {
        MoveAlone(used', budget, T);
      }
      StillApart(cfg, src, dst, n, curSrc, curDst, iterCount);
    }

    /** The loop of `run_channel_impl`; `last` is the burst-start flag it ends with. */
    method Loop(first: bool, budget: nat, ghost T: TableId) returns (used: nat, ghost last: bool)
      requires Ready(first, T)
      modifies this`keySrc, this`keyDst, this`srcT, this`dstT, this`table, this`pos, this`curSrc, this`curDst,
               this`iterCount, this`remCount, ram
      ensures Ready(last, T)
      ensures Out(last, used) == Plain(cfg, old(Out(first, 0)), budget)
    {
      used, last := 0, first;
      var begin, noRunBelow := first, 0;
      ghost var goal := Plain(cfg, Out(first, 0), budget);
      while iterCount > 0 && used < budget
        invariant Ready(begin, T) && last == begin
        invariant Plain(cfg, Out(begin, used), budget) == goal
        decreases iterCount
      {
        used, noRunBelow := Turn(begin, used, budget, noRunBelow, T);
        begin, last := false, false;
      }
    }

    /** `run_channel_impl`: the fast transfer is the plain one, whatever the budget, and what is left
        of it is as fit for another run. */
    method RunChannel(budget: nat, ghost T: TableId) returns (used: nat)
      requires Ready(running == 2, T)
      modifies this, ram
      ensures Ready(false, T) && running == 1
      ensures Out(false, used) == Dropped(Plain(cfg, old(Out(running == 2, 0)), budget))
    {
      var first := running == 2;
      running := 1;
      ghost var last;
      used, last := Loop(first, budget, T);
      StartSpent(cfg, St(last), T);
    }

    /** Several runs, each with a budget of its own: the channel ends as the plain loop cut into these
        slices, and the cycles add up. */
    method RunSlices(budgets: seq<nat>, ghost T: TableId) returns (used: nat)
      requires Ready(running == 2, T)
      modifies this, ram
      ensures Ready(running == 2, T)
      ensures Out(running == 2, used) == Sliced(cfg, old(St(running == 2)), budgets)
      decreases |budgets|
    {
      used := 0;
      if |budgets| > 0 {
        var first := RunChannel(budgets[0], T);
        var rest := RunSlices(budgets[1..], T);
        used := first + rest;
      }
    }
  }

  /** Successive `run_channel` calls with these budgets, on the plain loop: the cycles add up. */
  function Sliced(cfg: Config, s: State, budgets: seq<nat>): (r: Outcome)
    requires TablesOk(cfg) && Sound(cfg, s)
    ensures Sound(cfg, r.s)
    decreases |budgets|
  {
    if |budgets| == 0 then Outcome(s, 0)
    else
      var r := Dropped(Plain(cfg, Outcome(s, 0), budgets[0]));
      var rest := Sliced(cfg, r.s, budgets[1..]);
      Outcome(rest.s, r.used + rest.used)
  }

  /** A state fit for a run is fit for one whose first access is not that of a burst. */
  lemma StartSpent(cfg: Config, s: State, T: TableId)
    requires TablesOk(cfg) && Sound(cfg, s) && BurstSafe(cfg, s, T)
    ensures Sound(cfg, s.(first := false)) && BurstSafe(cfg, s.(first := false), T)
  {
  }

  /** The burst-start flag is spent once the loop has been entered. */
  function Dropped(o: Outcome): Outcome { o.(s := o.s.(first := false)) }

  lemma SoundStart(cfg: Config, s: State)
    requires Sound(cfg, s) && s.iter > 0
    ensures 0 <= s.src < |s.mem| && 0 <= s.dst < |s.mem|
  {
  }

  /** A unit of the plain loop in two halves. */
  lemma PayThenMove(cfg: Config, o: Outcome, budget: nat, T: TableId)
    requires TablesOk(cfg) && Sound(cfg, o.s) && o.s.iter > 0 && BurstSafe(cfg, o.s, T) && o.used < budget
    ensures var p := UnitCycles(cfg, o.s);
            var next := Outcome(Charged(o.s, p), o.used + p.cost * cfg.Scale());
            && Sound(cfg, next.s) && BurstSafe(cfg, next.s, T)
            && (cfg.srcInc == 1 && cfg.dstInc == 1 ==> TableFits(cfg, next.s))
            && PaidPlain(cfg, next, budget) == Plain(cfg, o, budget)
  {
    if cfg.srcInc == 1 && cfg.dstInc == 1 { PayingFits(cfg, o.s, T); }
  }

  lemma MoveKeepsSafe(cfg: Config, s: State, T: TableId)
    requires TablesOk(cfg) && Sound(cfg, s) && s.iter > 0 && BurstSafe(cfg, s, T)
    ensures Sound(cfg, Move(cfg, s)) && BurstSafe(cfg, Move(cfg, s), T)
  {
    if cfg.srcInc == 1 && cfg.dstInc == 1 { BurstSafeNext(cfg, s, Move(cfg, s), T, 1); }
  }

  /** The unit paid for belongs to a run with n units left in its pages. */
  ghost predicate InUnitRun(cfg: Config, s: State, n: nat) {
    && cfg.srcInc == 1 && cfg.dstInc == 1 && !s.first
    && 1 <= n && InPage(cfg, s.src, n) && InPage(cfg, s.dst, n) && TableFits(cfg, s)
  }

  /** Moving a unit of a run keeps the run's cost; what is left of the run starts one unit on. */
  lemma MovedInRun(cfg: Config, s: State, room: nat, T: TableId)
    requires TablesOk(cfg) && Sound(cfg, s) && s.iter > 0 && BurstSafe(cfg, s, T) && InUnitRun(cfg, s, room)
    ensures Sound(cfg, Move(cfg, s)) && BurstSafe(cfg, Move(cfg, s), T)
    ensures room > 1 ==> InUnitRun(cfg, Move(cfg, s), room - 1) && RunCostOf(cfg, Move(cfg, s)) == RunCostOf(cfg, s)
  {
    BurstSafeNext(cfg, s, Move(cfg, s), T, 1);
    if room > 1 {
      SameBlock(cfg, s.src, 1);
      SameBlock(cfg, s.dst, 1);
      InPageNext(cfg, s.src, room);
      InPageNext(cfg, s.dst, room);
    }
  }

  /** Paying for a unit of a run keeps the run and its cost. */
  lemma PaidKeepsRun(cfg: Config, s: State, room: nat, T: TableId)
    requires TablesOk(cfg) && Sound(cfg, s) && s.iter > 0 && BurstSafe(cfg, s, T) && InUnitRun(cfg, s, room)
    ensures var c := Charged(s, UnitCycles(cfg, s));
            Sound(cfg, c) && BurstSafe(cfg, c, T) && InUnitRun(cfg, c, room) && RunCostOf(cfg, c) == RunCostOf(cfg, s)
  {
    PayingFits(cfg, s, T);
  }

  /** Paying for the next unit of a run is what the plain loop does next. */
  lemma PaidInRun(cfg: Config, o: Outcome, room: nat, T: TableId, budget: nat)
    requires TablesOk(cfg) && Sound(cfg, o.s) && o.s.iter > 0 && BurstSafe(cfg, o.s, T) && InUnitRun(cfg, o.s, room)
    requires o.used < budget
    ensures var p := UnitCycles(cfg, o.s);
            var next := Outcome(Charged(o.s, p), o.used + p.cost * cfg.Scale());
            && Sound(cfg, next.s) && BurstSafe(cfg, next.s, T) && InUnitRun(cfg, next.s, room)
            && RunCostOf(cfg, next.s) == RunCostOf(cfg, o.s)
            && PaidPlain(cfg, next, budget) == Plain(cfg, o, budget)
  {
    PaidKeepsRun(cfg, o.s, room, T);
    assert Plain(cfg, o, budget) == Plain(cfg, Unit(cfg, o), budget);
  }

  lemma StillApart(cfg: Config, src: int, dst: int, n: nat, src': int, dst': int, n': nat)
    requires Apart(cfg, src, dst, n) && n' <= n
    requires cfg.srcInc == 1 && cfg.dstInc == 1 ==> src' - src == dst' - dst == n - n'
    ensures Apart(cfg, src', dst', n')
  {
    ApartNext(cfg, src, dst, n, n - n');
  }

  /** The two ranges of a run lie inside memory, and are apart: it stays in its pages. */
  lemma RunRanges(cfg: Config, s: State, k: nat)
    requires Sound(cfg, s) && InRun(cfg, s, k) && Apart(cfg, s.src, s.dst, s.iter)
    ensures s.src + k <= |s.mem| && s.dst + k <= |s.mem| && (s.src + k <= s.dst || s.dst + k <= s.src)
  {
    SoundRange(cfg, s);
    assert RunApart(cfg, s.src, s.dst - s.src, k);
  }

  /** What makes an affordable bulk run safe and exact. */
  lemma BulkRunIsPlain(cfg: Config, o: Outcome, k: nat, budget: nat, T: TableId)
    requires TablesOk(cfg) && Sound(cfg, o.s) && k >= 1 && InRun(cfg, o.s, k)
    requires TableFits(cfg, o.s) && BurstSafe(cfg, o.s, T) && Apart(cfg, o.s.src, o.s.dst, o.s.iter)
    requires ClosedForm(RunCostOf(cfg, o.s), o.s.pos)
    requires Affordable(RunCostOf(cfg, o.s), o.s.pos, k, o.used, cfg.Scale(), budget)
    ensures o.s.src + k <= |o.s.mem| && o.s.dst + k <= |o.s.mem|
    ensures o.s.src + k <= o.s.dst || o.s.dst + k <= o.s.src
    ensures Sound(cfg, AfterRun(cfg, o, k).s) && BurstSafe(cfg, AfterRun(cfg, o, k).s, T)
    ensures PaidPlain(cfg, o, budget) == Plain(cfg, AfterRun(cfg, o, k), budget)
  {
    RunRanges(cfg, o.s, k);
    RunIsPlain(cfg, o, k, budget);
    BurstSafeAfterRun(cfg, o, k, T);
  }

  /** Counting up, the transfer's ranges lie inside memory. */
  lemma {:induction false} InsideRange(cfg: Config, size: nat, src: int, dst: int, n: nat)
    requires cfg.srcInc == 1 && cfg.dstInc == 1 && n > 0 && Inside(cfg, size, src, dst, n)
    ensures 0 <= src && src + n <= size && 0 <= dst && dst + n <= size
    decreases n
  {
    if n > 1 { InsideRange(cfg, size, src + 1, dst + 1, n - 1); }
  }

  lemma SoundRange(cfg: Config, s: State)
    requires cfg.srcInc == 1 && cfg.dstInc == 1 && s.iter > 0 && Sound(cfg, s)
    ensures 0 <= s.src && s.src + s.iter <= |s.mem| && 0 <= s.dst && s.dst + s.iter <= |s.mem|
  {
    InsideRange(cfg, |s.mem|, s.src, s.dst, s.iter);
  }

  lemma BurstSafeAfterRun(cfg: Config, o: Outcome, k: nat, T: TableId)
    requires TablesOk(cfg) && InRun(cfg, o.s, k) && TableFits(cfg, o.s) && BurstSafe(cfg, o.s, T)
    requires o.s.iter <= o.s.rem && o.s.src + k <= |o.s.mem| && o.s.dst + k <= |o.s.mem|
    ensures BurstSafe(cfg, AfterRun(cfg, o, k).s, T)
  {
    assert SteadyUnit(cfg, o.s.src, o.s.dst - o.s.src, T);
    BurstSafeNext(cfg, o.s, AfterRun(cfg, o, k).s, T, k);
  }
}
