/** When the cyclic cost walk of a fast run is exact: while the table in force is the one the
    per-unit rule of src/core/dma/dma.cpp would choose at a wrap, and only then. */
module DmaBursts {
  import opened Basics
  import opened DmaCost
  import opened Dma

  // ---- the two walks -----------------------------------------------------------------

  /** Where `unit_cycles` is after n units of one burst that began in table b, when every wrap
      selects table c: still in b or not, and the position. */
  datatype Place = Place(wrapped: bool, pos: nat)

  function ReselectEnd(b: Burst, c: Burst, pos: nat, n: nat): (p: Place)
    requires b.Len() >= 3 && c.Len() >= 3 && pos <= b.Len()
    ensures p.pos <= if p.wrapped then c.Len() else b.Len()
  {
    if n == 0 then Place(false, pos)
    else
      var p := ReselectEnd(b, c, pos, n - 1);
      if p.pos < (if p.wrapped then c.Len() else b.Len()) then p.(pos := p.pos + 1) else Place(true, 1)
  }

  function ReselectEntry(b: Burst, c: Burst, pos: nat, n: nat): nat
    requires b.Len() >= 3 && c.Len() >= 3 && pos <= b.Len()
  {
    var p := ReselectEnd(b, c, pos, n);
    if p.wrapped then Entry(c, p.pos) else if p.pos < b.Len() then b.cycle[p.pos] else c.cycle[0]
  }

  function ReselectCost(b: Burst, c: Burst, pos: nat, n: nat): nat
    requires b.Len() >= 3 && c.Len() >= 3 && pos <= b.Len()
  {
    if n == 0 then 0 else ReselectCost(b, c, pos, n - 1) + ReselectEntry(b, c, pos, n - 1)
  }

  /** Selecting the table already in force is wrapping. */
  lemma {:induction false} SameTableWraps(b: Burst, pos: nat, n: nat)
    requires b.Len() >= 3 && pos <= b.Len()
    ensures ReselectCost(b, b, pos, n) == WalkCost(b, pos, n)
    ensures ReselectEnd(b, b, pos, n).pos == WalkEnd(b, pos, n)
  {
    if n > 0 { SameTableWraps(b, pos, n - 1); }
  }

  /** Up to the wrap both walks stay in b. */
  lemma {:induction false} BeforeWrap(b: Burst, c: Burst, pos: nat, n: nat)
    requires b.Len() >= 3 && c.Len() >= 3 && pos + n <= b.Len()
    ensures ReselectEnd(b, c, pos, n) == Place(false, pos + n) && WalkEnd(b, pos, n) == pos + n
  {
    if n > 0 { BeforeWrap(b, c, pos, n - 1); }
  }

  /** The two walks cost the same over the first n units. */
  ghost predicate WalksAgree(b: Burst, c: Burst, pos: nat, n: nat) {
    && b.Len() >= 3 && c.Len() >= 3 && pos <= b.Len()
    && forall k | 0 <= k <= n :: SameCost(b, c, pos, k)
  }

  ghost predicate SameCost(b: Burst, c: Burst, pos: nat, k: nat)
    requires b.Len() >= 3 && c.Len() >= 3 && pos <= b.Len()
  {
    ReselectCost(b, c, pos, k) == WalkCost(b, pos, k)
  }

  /** Agreeing on every length means agreeing on every unit. */
  lemma UnitsAgree(b: Burst, c: Burst, pos: nat, n: nat, k: nat)
    requires WalksAgree(b, c, pos, n) && k < n
    ensures ReselectEntry(b, c, pos, k) == Entry(b, WalkEnd(b, pos, k))
  {
    assert SameCost(b, c, pos, k + 1) && SameCost(b, c, pos, k);
  }

  /** Three units past the wrap tell how both tables open. */
  lemma FirstThreeAgree(b: Burst, c: Burst, pos: nat, n: nat)
    requires WalksAgree(b, c, pos, n) && n >= b.Len() - pos + 3
    ensures b.cycle[0] == c.cycle[0] && b.cycle[1] == c.cycle[1] && b.cycle[2] == c.cycle[2]
  {
    var h := b.Len() - pos;
    BeforeWrap(b, c, pos, h);
    UnitsAgree(b, c, pos, n, h);
    UnitsAgree(b, c, pos, n, h + 1);
    UnitsAgree(b, c, pos, n, h + 2);
    assert ReselectEnd(b, c, pos, h + 1) == Place(true, 1) && WalkEnd(b, pos, h + 1) == 1;
    assert ReselectEnd(b, c, pos, h + 2) == Place(true, 2) && WalkEnd(b, pos, h + 2) == 2;
  }

  function Lead(t: TableId): (nat, nat, nat)
    requires t != Dummy
  {
    match t
    case Read16 => (7, 3, 2)
    case Read32N2 => (9, 4, 3)
    case Read32 => (9, 3, 2)
    case Write16 => (8, 2, 2)
    case Write32N2 => (9, 4, 4)
    case Write32 => (9, 3, 3)
  }

  /** No two tables open alike. */
  lemma PatternLead(t: TableId)
    requires t != Dummy
    ensures Pattern(t).Len() >= 3
    ensures (Pattern(t).cycle[0], Pattern(t).cycle[1], Pattern(t).cycle[2]) == Lead(t)
  {
    PatternOpens(t);
  }

  lemma LeadUnique(t: TableId, u: TableId)
    requires t != Dummy && u != Dummy && Lead(t) == Lead(u)
    ensures t == u
  {
  }

  lemma SameTableAgrees(b: Burst, pos: nat, n: nat)
    requires b.Len() >= 3 && pos <= b.Len()
    ensures WalksAgree(b, b, pos, n)
  {
    forall k | 0 <= k <= n ensures SameCost(b, b, pos, k) {
      SameTableWraps(b, pos, k);
    }
  }

  /** Every table but the dummy opens with its own three costs. */
  ghost predicate Telling(pattern: TableId -> Burst) {
    forall t | t != Dummy ::
      pattern(t).Len() >= 3 && (pattern(t).cycle[0], pattern(t).cycle[1], pattern(t).cycle[2]) == Lead(t)
  }

  lemma RealTelling()
    ensures Telling(Pattern)
  {
    forall t | t != Dummy
      ensures Pattern(t).Len() >= 3 && (Pattern(t).cycle[0], Pattern(t).cycle[1], Pattern(t).cycle[2]) == Lead(t)
    {
      PatternLead(t);
    }
  }

  lemma WalksTell(pattern: TableId -> Burst, t: TableId, u: TableId, pos: nat, n: nat)
    requires Telling(pattern) && t != Dummy && u != Dummy && pos <= pattern(t).Len() && n >= pattern(t).Len() - pos + 3
    ensures WalksAgree(pattern(t), pattern(u), pos, n) <==> t == u
  {
    if t == u {
      SameTableAgrees(pattern(t), pos, n);
    } else if WalksAgree(pattern(t), pattern(u), pos, n) {
      FirstThreeAgree(pattern(t), pattern(u), pos, n);
      LeadUnique(t, u);
    }
  }

  /** The cyclic walk of a fast run and the reselecting walk of `unit_cycles`, over runs that go at
      least three units past the wrap: alike exactly when the table in force is the one a wrap would
      select. */
  lemma CyclicWalkExact(t: TableId, u: TableId, pos: nat, n: nat)
    requires t != Dummy && u != Dummy && pos <= Pattern(t).Len() && n >= Pattern(t).Len() - pos + 3
    ensures Pattern(t).Len() >= 3 && Pattern(u).Len() >= 3
    ensures WalksAgree(Pattern(t), Pattern(u), pos, n) <==> t == u
  {
    RealTelling();
    WalksTell(Pattern, t, u, pos, n);
  }

  // ---- on a transfer -----------------------------------------------------------------

  /** k units of the plain loop. */
  function Units(cfg: Config, o: Outcome, k: nat): (r: Outcome)
    requires TablesOk(cfg) && Sound(cfg, o.s) && k <= o.s.iter
    ensures Sound(cfg, r.s) && r.s.iter == o.s.iter - k
  {
    if k == 0 then o else Unit(cfg, Units(cfg, o, k - 1))
  }

  /** A state between two units of a burst, the next n units of both ends in their pages. */
  ghost predicate InBurst(cfg: Config, s: State, n: nat) {
    && TablesOk(cfg) && Sound(cfg, s) && n <= s.iter && cfg.srcInc == 1 && cfg.dstInc == 1 && !s.first
    && InPage(cfg, s.src, n) && InPage(cfg, s.dst, n)
    && Bursts(cfg, cfg.At(s.src), cfg.At(s.dst)) && s.table != Dummy && s.pos <= cfg.pattern(s.table).Len()
  }

  /** The table a wrap there selects. */
  function Chosen(cfg: Config, s: State): TableId { Selected(cfg, cfg.At(s.src), cfg.At(s.dst)) }

  /** r is where the reselecting walk is k units after o. */
  ghost predicate Reselecting(cfg: Config, o: Outcome, r: Outcome, k: nat)
    requires InBurst(cfg, o.s, k)
  {
    var b, c := cfg.pattern(o.s.table), cfg.pattern(Chosen(cfg, o.s));
    var p := ReselectEnd(b, c, o.s.pos, k);
    && r.used == o.used + ReselectCost(b, c, o.s.pos, k) * cfg.Scale()
    && r.s.src == o.s.src + k && r.s.dst == o.s.dst + k && !r.s.first
    && r.s.pos == p.pos && r.s.table == if p.wrapped then Chosen(cfg, o.s) else o.s.table
  }

  /** The plain loop over a burst is the reselecting walk. */
  lemma {:induction false} BurstReselects(cfg: Config, o: Outcome, k: nat)
    requires InBurst(cfg, o.s, k)
    ensures Reselecting(cfg, o, Units(cfg, o, k), k)
  {
    if k > 0 {
      assert InBurst(cfg, o.s, k - 1);
      BurstReselects(cfg, o, k - 1);
      NextReselects(cfg, o, Units(cfg, o, k - 1), k - 1);
    }
  }

  /** One more unit of it. */
  lemma NextReselects(cfg: Config, o: Outcome, r: Outcome, k: nat)
    requires InBurst(cfg, o.s, k + 1) && InBurst(cfg, o.s, k) && Sound(cfg, r.s) && r.s.iter == o.s.iter - k
    requires Reselecting(cfg, o, r, k)
    ensures Reselecting(cfg, o, Unit(cfg, r), k + 1)
  {
    SameBlock(cfg, o.s.src, k);
    SameBlock(cfg, o.s.dst, k);
    var b, c := cfg.pattern(o.s.table), cfg.pattern(Chosen(cfg, o.s));
    ScaleSum(ReselectCost(b, c, o.s.pos, k), ReselectEntry(b, c, o.s.pos, k), cfg.Scale());
  }

  /** The charge of `direct_run` for k units more, as the plain loop charges them. */
  ghost predicate ChargedAlike(cfg: Config, o: Outcome, k: nat) {
    InBurst(cfg, o.s, k) && Units(cfg, o, k).used == o.used + Cost(RunCostOf(cfg, o.s), o.s.pos, k) * cfg.Scale()
  }

  lemma ChargeOfRun(cfg: Config, s: State, n: nat, k: nat)
    requires InBurst(cfg, s, n) && k <= n
    ensures InBurst(cfg, s, k) && ClosedForm(RunCostOf(cfg, s), s.pos)
    ensures Cost(RunCostOf(cfg, s), s.pos, k) == WalkCost(cfg.pattern(s.table), s.pos, k)
  {
  }

  lemma ChargeOfPlain(cfg: Config, o: Outcome, k: nat)
    requires InBurst(cfg, o.s, k)
    ensures Units(cfg, o, k).used
         == o.used + ReselectCost(cfg.pattern(o.s.table), cfg.pattern(Chosen(cfg, o.s)), o.s.pos, k) * cfg.Scale()
  {
    BurstReselects(cfg, o, k);
  }

  lemma AlikeOnWalks(cfg: Config, o: Outcome, n: nat, k: nat)
    requires InBurst(cfg, o.s, n) && k <= n
    ensures ChargedAlike(cfg, o, k) <==> SameCost(cfg.pattern(o.s.table), cfg.pattern(Chosen(cfg, o.s)), o.s.pos, k)
  {
    ChargeOfRun(cfg, o.s, n, k);
    ChargeOfPlain(cfg, o, k);
    SumsAlike(o.used, ReselectCost(cfg.pattern(o.s.table), cfg.pattern(Chosen(cfg, o.s)), o.s.pos, k),
              WalkCost(cfg.pattern(o.s.table), o.s.pos, k), cfg.Scale());
  }

  lemma SumsAlike(used: nat, a: nat, b: nat, scale: nat)
    requires scale > 0
    ensures used + a * scale == used + b * scale <==> a == b
  {
    ScaleCancels(a, b, scale);
  }

  lemma AllAlikeOnWalks(cfg: Config, o: Outcome, n: nat)
    requires InBurst(cfg, o.s, n)
    ensures (forall k | 0 <= k <= n :: ChargedAlike(cfg, o, k))
       <==> WalksAgree(cfg.pattern(o.s.table), cfg.pattern(Chosen(cfg, o.s)), o.s.pos, n)
  {
    forall k | 0 <= k <= n
      ensures ChargedAlike(cfg, o, k) <==> SameCost(cfg.pattern(o.s.table), cfg.pattern(Chosen(cfg, o.s)), o.s.pos, k)
    {
      AlikeOnWalks(cfg, o, n, k);
    }
  }

  lemma FastRunTells(cfg: Config, o: Outcome, n: nat)
    requires Telling(cfg.pattern) && InBurst(cfg, o.s, n) && n >= cfg.pattern(o.s.table).Len() - o.s.pos + 3
    ensures (forall k | 0 <= k <= n :: ChargedAlike(cfg, o, k)) <==> o.s.table == Chosen(cfg, o.s)
  {
    AllAlikeOnWalks(cfg, o, n);
    WalksTell(cfg.pattern, o.s.table, Chosen(cfg, o.s), o.s.pos, n);
  }

  /** A fast run in a burst that goes at least three units past the wrap charges what the plain loop
      does, whatever its length up to there, exactly when the table in force is the one a wrap
      selects. */
  lemma FastRunExact(cfg: Config, o: Outcome, n: nat)
    requires cfg.pattern == Pattern && InBurst(cfg, o.s, n) && n >= Pattern(o.s.table).Len() - o.s.pos + 3
    ensures (forall k | 0 <= k <= n :: ChargedAlike(cfg, o, k)) <==> o.s.table == Chosen(cfg, o.s)
  {
    RealTelling();
    FastRunTells(cfg, o, n);
  }

  lemma ScaleCancels(a: nat, b: nat, scale: nat)
    requires scale > 0
    ensures a * scale == b * scale <==> a == b
  {
    if a < b { MulApart(a, b, scale); } else if b < a { MulApart(b, a, scale); }
  }

  // ---- a transfer on which they differ --------------------------------------------------

  /** Main memory at block 2, copied to a block of cost 2 and on into one of cost 4. */
  function CrossingTiming(block: int): Timing
  {
    if block == 2 then Timing(MAIN, 8, 1) else if block == 0 then Timing(0, 2, 1) else Timing(0, 4, 1)
  }

  function CrossingBy(pattern: TableId -> Burst): Config
  {
    Config(true, true, 1, 1, 1, CrossingTiming, p => true, p => true, pattern)
  }

  function Crossing(): Config { CrossingBy(Pattern) }

  /** Its start: the first unit goes to the last one of block 0. */
  function CrossingStart(): State { State(8192, 4095, 100, 100, true, Dummy, 0, seq(8300, _ => 0)) }

  lemma ListedLength(rle: seq<Run>)
    requires |rle| == 4 && rle[0].count == rle[1].count == rle[3].count == 1 && rle[2].count == 77
    requires forall k | 0 <= k < |rle| :: rle[k].cost > 0
    ensures BurstOf(rle).Len() == 80
  {
    assert Unroll(rle, 1) == Unroll(rle, 0) + Repeat(rle[0].cost, 1);
    assert |Unroll(rle, 2)| == 2;
    assert |Unroll(rle, 3)| == 79;
  }

  lemma {:induction false} StaysInside(cfg: Config, size: nat, src: int, dst: int, n: nat)
    requires cfg.srcInc == 1 && cfg.dstInc == 1 && 0 <= src && src + n <= size && 0 <= dst && dst + n <= size
    ensures Inside(cfg, size, src, dst, n)
    decreases n
  {
    if n > 0 { StaysInside(cfg, size, src + 1, dst + 1, n - 1); }
  }

  lemma CrossingSound(pattern: TableId -> Burst)
    ensures Sound(CrossingBy(pattern), CrossingStart())
  {
    StaysInside(CrossingBy(pattern), 8300, 8192, 4095, 100);
  }

  lemma CrossingPays(pattern: TableId -> Burst)
    requires TablesOk(CrossingBy(pattern))
    ensures var u := UnitCycles(CrossingBy(pattern), CrossingStart()); u.table == Read32N2 && u.pos == 1
  {
    assert 8192 / 4096 == 2 && 4095 / 4096 == 0;
  }

  lemma CrossingBegins(pattern: TableId -> Burst)
    requires TablesOk(CrossingBy(pattern)) && Sound(CrossingBy(pattern), CrossingStart())
    ensures var r := Unit(CrossingBy(pattern), Outcome(CrossingStart(), 0)).s;
            r.src == 8193 && r.dst == 4096 && r.iter == 99 && r.table == Read32N2 && r.pos == 1 && !r.first
  {
    CrossingPays(pattern);
  }

  lemma CrossingInPages(pattern: TableId -> Burst)
    ensures InPage(CrossingBy(pattern), 8193, 82) && InPage(CrossingBy(pattern), 4096, 82)
  {
    assert 8193 % 512 == 1 && 4096 % 512 == 0;
  }

  lemma CrossingBursts(pattern: TableId -> Burst)
    ensures var cfg := CrossingBy(pattern);
      Bursts(cfg, cfg.At(8193), cfg.At(4096)) && Selected(cfg, cfg.At(8193), cfg.At(4096)) == Read32
  {
    assert 8193 / 4096 == 2 && 4096 / 4096 == 1;
  }

  lemma CrossingInBurst(pattern: TableId -> Burst, s: State)
    requires TablesOk(CrossingBy(pattern)) && Sound(CrossingBy(pattern), s) && s.src == 8193 && s.dst == 4096
    requires s.iter == 99
    requires s.table == Read32N2 && s.pos == 1 && !s.first
    ensures InBurst(CrossingBy(pattern), s, 82) && Chosen(CrossingBy(pattern), s) == Read32
  {
    CrossingInPages(pattern);
    CrossingBursts(pattern);
    assert CrossingBy(pattern).pattern(Read32N2).Len() >= 3;
  }

  /** The first unit of the transfer selects one table and leaves it in the middle of a burst in
      which a wrap would choose another; some fast run from there is not charged as the plain loop
      charges it. */
  ghost predicate GoesWrong(pattern: TableId -> Burst)
    requires TablesOk(CrossingBy(pattern)) && Sound(CrossingBy(pattern), CrossingStart())
  {
    var cfg, o := CrossingBy(pattern), Unit(CrossingBy(pattern), Outcome(CrossingStart(), 0));
    && InBurst(cfg, o.s, 82) && o.s.table == Read32N2 && Chosen(cfg, o.s) == Read32
    && exists k | 0 <= k <= 82 :: !ChargedAlike(cfg, o, k)
  }

  lemma CrossingTells(pattern: TableId -> Burst)
    requires Telling(pattern) && pattern(Read32N2).Len() == 80
    requires TablesOk(CrossingBy(pattern)) && Sound(CrossingBy(pattern), CrossingStart())
    ensures GoesWrong(pattern)
  {
    CrossingBegins(pattern);
    var cfg, o := CrossingBy(pattern), Unit(CrossingBy(pattern), Outcome(CrossingStart(), 0));
    CrossingInBurst(pattern, o.s);
    FastRunTells(cfg, o, 82);
  }

  lemma EightyEntries()
    ensures Pattern(Read32N2).Len() == 80
  {
    ListedLength(Listing(Read32N2));
  }

  /** The transfer under the tables of the code. */
  lemma CrossingDiffers()
    ensures TablesOk(Crossing()) && Sound(Crossing(), CrossingStart()) && GoesWrong(Pattern)
  {
    RealTables(Crossing());
    RealTelling();
    EightyEntries();
    CrossingSound(Pattern);
    CrossingTells(Pattern);
  }
}
