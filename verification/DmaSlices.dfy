/** Cutting a DMA transfer into budget slices. */
module DmaSlices {
  import opened DmaCost
  import opened Dma
  import opened DmaChannel

  // ---- slices -------------------------------------------------------------------

  /** The whole transfer, no budget. */
  function All(cfg: Config, o: Outcome): (r: Outcome)
    requires TablesOk(cfg) && Sound(cfg, o.s)
    ensures r.s.iter == 0
    decreases o.s.iter
  {
    if o.s.iter == 0 then o else All(cfg, Unit(cfg, o))
  }

  /** A cost already paid does not change what follows. */
  lemma {:induction false} AllShifts(cfg: Config, s: State, a: nat, b: nat)
    requires TablesOk(cfg) && Sound(cfg, s)
    ensures All(cfg, Outcome(s, a + b)).s == All(cfg, Outcome(s, a)).s
    ensures All(cfg, Outcome(s, a + b)).used == All(cfg, Outcome(s, a)).used + b
    decreases s.iter
  {
    if s.iter > 0 {
      var n := Unit(cfg, Outcome(s, a));
      assert Unit(cfg, Outcome(s, a + b)) == Outcome(n.s, n.used + b);
      AllShifts(cfg, n.s, n.used, b);
    }
  }

  /** A slice stops part-way along the whole transfer. */
  lemma {:induction false} PlainIsPrefix(cfg: Config, o: Outcome, budget: nat)
    requires TablesOk(cfg) && Sound(cfg, o.s)
    ensures All(cfg, Plain(cfg, o, budget)) == All(cfg, o)
    ensures o.s.iter > 0 && o.used < budget ==> !Plain(cfg, o, budget).s.first
    ensures !o.s.first ==> !Plain(cfg, o, budget).s.first
    decreases o.s.iter
  {
    if o.s.iter > 0 && o.used < budget {
      PlainIsPrefix(cfg, Unit(cfg, o), budget);
    }
  }

  lemma OneSlice(cfg: Config, s: State, budget: nat)
    requires TablesOk(cfg) && Sound(cfg, s) && budget > 0
    ensures var r := Dropped(Plain(cfg, Outcome(s, 0), budget));
            Sound(cfg, r.s) && Dropped(All(cfg, r)) == Dropped(All(cfg, Outcome(s, 0)))
  {
    PlainIsPrefix(cfg, Outcome(s, 0), budget);
  }

  predicate AllPositive(budgets: seq<nat>) { forall k | 0 <= k < |budgets| :: budgets[k] > 0 }

  lemma {:induction false} SlicesArePrefix(cfg: Config, s: State, budgets: seq<nat>)
    requires TablesOk(cfg) && Sound(cfg, s) && AllPositive(budgets)
    ensures Dropped(All(cfg, Sliced(cfg, s, budgets))) == Dropped(All(cfg, Outcome(s, 0)))
    decreases |budgets|
  {
    if |budgets| > 0 {
      OneSlice(cfg, s, budgets[0]);
      var r := Dropped(Plain(cfg, Outcome(s, 0), budgets[0]));
      SlicesArePrefix(cfg, r.s, budgets[1..]);
      FirstThenRest(cfg, s, budgets, r, Sliced(cfg, r.s, budgets[1..]));
    }
  }

  /** The first slice and the rest, once the rest is known to be a prefix of what the first left. */
  lemma FirstThenRest(cfg: Config, s: State, budgets: seq<nat>, r: Outcome, rest: Outcome)
    requires TablesOk(cfg) && Sound(cfg, s) && |budgets| > 0 && budgets[0] > 0
    requires r == Dropped(Plain(cfg, Outcome(s, 0), budgets[0])) && Sound(cfg, r.s)
    requires rest == Sliced(cfg, r.s, budgets[1..])
    requires Dropped(All(cfg, rest)) == Dropped(All(cfg, Outcome(r.s, 0)))
    ensures Dropped(All(cfg, Sliced(cfg, s, budgets))) == Dropped(All(cfg, Outcome(s, 0)))
  {
    OneSlice(cfg, s, budgets[0]);
    Joined(cfg, r, rest);
    assert Sliced(cfg, s, budgets) == Outcome(rest.s, r.used + rest.used);
  }

  lemma Joined(cfg: Config, r: Outcome, rest: Outcome)
    requires TablesOk(cfg) && Sound(cfg, r.s) && Sound(cfg, rest.s)
    requires Dropped(All(cfg, rest)) == Dropped(All(cfg, Outcome(r.s, 0)))
    ensures Dropped(All(cfg, Outcome(rest.s, r.used + rest.used))) == Dropped(All(cfg, r))
  {
    AllShifts(cfg, rest.s, rest.used, r.used);
    AllShifts(cfg, r.s, 0, r.used);
  }

  /** However a transfer is cut into slices, once it is complete the memory, the addresses, the
      burst position and the total cost are those of the uncut transfer. */
  lemma SlicingChangesNothing(cfg: Config, s: State, budgets: seq<nat>)
    requires TablesOk(cfg) && Sound(cfg, s) && AllPositive(budgets)
    requires Sliced(cfg, s, budgets).s.iter == 0
    ensures Dropped(Sliced(cfg, s, budgets)) == Dropped(All(cfg, Outcome(s, 0)))
  {
    SlicesArePrefix(cfg, s, budgets);
  }

  /** The same of the fast form: a transfer run to its end in slices, each with bulk runs and copies
      of its own, leaves what the uncut plain loop leaves, for the same cycles in all. */
  method RunInSlices(ch: Channel, budgets: seq<nat>, ghost T: TableId) returns (used: nat)
    requires ch.Ready(ch.running == 2, T) && AllPositive(budgets)
    modifies ch, ch.ram
    ensures ch.Ready(ch.running == 2, T)
    ensures ch.iterCount == 0 ==>
      Dropped(ch.Out(ch.running == 2, used)) == Dropped(All(ch.cfg, old(ch.Out(ch.running == 2, 0))))
  {
    ghost var s := ch.St(ch.running == 2);
    used := ch.RunSlices(budgets, T);
    if ch.iterCount == 0 {
      SlicingChangesNothing(ch.cfg, s, budgets);
    }
  }

  /** A slice of no cycles would not be harmless: it spends the burst-start flag, and the first
      unit then pays the sequential cost. `Dma::run` never hands one out. */
  lemma EmptySliceCosts()
    ensures exists cfg, s :: TablesOk(cfg) && Sound(cfg, s) && s.iter == 1 &&
              Sliced(cfg, s, [0, 100]).s.iter == 0 && Sliced(cfg, s, [100]).s.iter == 0 &&
              Sliced(cfg, s, [0, 100]).used != Sliced(cfg, s, [100]).used
  {
    var cfg := Config(false, true, 1, 1, 1, u => Timing(0, 4, 1), p => true, p => true, Pattern);
    RealTables(cfg);
    var s := State(0, 1, 1, 1, true, Dummy, 0, [5, 6]);
    var t := s.(first := false);
    assert Inside(cfg, 2, 1, 2, 0);
    assert Sound(cfg, s) && Sound(cfg, t);
    OneUnit(cfg, s, 8);
    OneUnit(cfg, t, 2);
    assert Sliced(cfg, Dropped(Outcome(s, 0)).s, [100]) == Sliced(cfg, t, [0, 100][1..]);
    assert [100][1..] == [];
  }

  lemma OneUnit(cfg: Config, s: State, cost: nat)
    requires TablesOk(cfg) && Sound(cfg, s) && s.iter == 1 && cfg.Scale() == 1 && UnitCycles(cfg, s).cost == cost
    ensures Sliced(cfg, s, [100]).used == cost && Sliced(cfg, s, [100]).s.iter == 0
  {
    var o := Unit(cfg, Outcome(s, 0));
    assert Plain(cfg, Outcome(s, 0), 100) == Plain(cfg, o, 100) == o;
    assert [100][1..] == [];
  }
}
