/** Skipping ahead in the ARM7 BIOS's two-instruction wait loop (src/core/cpu/wait_loop.cpp). */
module WaitLoop {
  import opened Basics

  datatype Flags = Flags(n: bool, z: bool, c: bool, v: bool)

  /** What the loop touches: its counter, the flags, and the cycles left of the slice. */
  datatype Cpu = Cpu(r0: nat, flags: Flags, budget: int)

  /** What one pass is charged: the subs's fetch, then the taken branch's refill. */
  datatype Cost = Cost(fetch: nat, refill: nat) {
    function Total(): nat { fetch + refill }
  }

  const LIMIT := 0x1_0000_0000

  function Signed(x: nat): int { if x < 0x8000_0000 then x else x - LIMIT }

  /** `subs r0, #1`. */
  function Subs(s: Cpu, cost: Cost): Cpu
    requires s.r0 < LIMIT
  {
    var r := (s.r0 + LIMIT - 1) % LIMIT;
    Cpu(r, Flags(r >= 0x8000_0000, r == 0, s.r0 >= 1, s.r0 == 0x8000_0000), s.budget - cost.fetch)
  }

  /** `bgt` back to it is taken. */
  predicate Greater(s: Cpu) { !s.flags.z && s.flags.n == s.flags.v }

  /** The counter goes down by one, round 2^32; the flags are the processor's: the sign of the result,
      zero, the carry of adding the complement of one and one, and signed overflow. */
  lemma SubsFlags(s: Cpu, cost: Cost)
    requires s.r0 < LIMIT
    ensures var t := Subs(s, cost);
      && t.r0 < LIMIT && (t.r0 == s.r0 - 1 || (s.r0 == 0 && t.r0 == 0xFFFF_FFFF))
      && (t.flags.n <==> Signed(t.r0) < 0) && (t.flags.z <==> t.r0 == 0)
      && (t.flags.c <==> s.r0 + 0xFFFF_FFFE + 1 >= 0x1_0000_0000) && (t.flags.v <==> Signed(t.r0) != Signed(s.r0) - 1)
  {
  }

  /** The branch back is taken exactly when the counter, signed, was more than one. */
  lemma TakenWhile(s: Cpu, cost: Cost)
    requires s.r0 < LIMIT
    ensures Greater(Subs(s, cost)) <==> Signed(s.r0) > 1
  {
  }

  /** One pass: None when the branch falls through. */
  datatype Pass = Out | Round(s: Cpu)

  function OnePass(s: Cpu, cost: Cost): Pass
    requires s.r0 < LIMIT
  {
    var t := Subs(s, cost);
    if Greater(t) then Round(t.(budget := t.budget - cost.refill)) else Out
  }

  /** k passes, as long as each comes round. */
  function Passes(s: Cpu, cost: Cost, k: nat): Pass
    requires s.r0 < LIMIT
  {
    if k == 0 then Round(s)
    else
      match Passes(s, cost, k - 1)
      case Out => Out
      case Round(t) => if t.r0 < LIMIT then OnePass(t, cost) else Out
  }

  const POSITIVE := Flags(false, false, true, false)

  /** The passes the code skips: what the budget covers, with one pass always left to run. */
  function Skipped(n: int, budget: int, total: nat): (k: nat)
    requires n > 1 && budget > 0 && total > 0
  {
    if budget / total > n - 1 then n - 1 else budget / total
  }

  /** `wait_loop_run`, past the conditions it gives up on: a pending IRQ, tracing, another BIOS. */
  method Run(s: Cpu, cost: Cost, clear: bool) returns (skipped: bool, t: Cpu)
    requires s.r0 < LIMIT
    ensures skipped == (clear && Signed(s.r0) > 1 && s.budget > 0 && cost.Total() > 0 && s.budget >= cost.Total())
    ensures !skipped ==> t == s
    ensures skipped ==> Passes(s, cost, Skipped(Signed(s.r0), s.budget, cost.Total())) == Round(t) && t.r0 < s.r0
    ensures skipped ==> 1 <= Signed(t.r0) && t.budget >= 0 && t.flags == Flags(false, false, true, false)
  {
    t, skipped := s, false;
    var n := Signed(s.r0);
    if n <= 1 || !clear || s.budget <= 0 || cost.Total() == 0 {
      return;
    }
    var k := s.budget / cost.Total();
    if k > n - 1 {
      k := n - 1;
    }
    QuotientPositive(s.budget, cost.Total());
    if k == 0 {
      return;
    }
    t := Cpu(n - k, POSITIVE, s.budget - k * cost.Total());
    skipped := true;
    AfterPasses(s, cost, k);
    Covered(s.budget, cost.Total(), k);
  }

  lemma QuotientPositive(b: int, c: nat)
    requires b > 0 && c > 0
    ensures b / c >= 0 && (b / c == 0 <==> b < c)
  {
    if b >= c {
      Quotient(b, c, 1);
    }
  }

  lemma Quotient(b: int, c: nat, q: nat)
    requires c > 0 && q * c <= b
    ensures q <= b / c
  {
    if b / c < q {
      assert b == b / c * c + b % c;
      assert (b / c + 1) * c <= q * c by { MulOrder(b / c + 1, q, c); }
    }
  }

  lemma Covered(b: int, c: nat, k: nat)
    requires b > 0 && c > 0 && k <= b / c
    ensures k * c <= b
  {
    MulOrder(k, b / c, c);
  }

  /** k passes with the counter staying positive: the counter less k, the flags of a positive
      result, the budget less k passes. */
  lemma {:induction false} AfterPasses(s: Cpu, cost: Cost, k: nat)
    requires s.r0 < 0x8000_0000 && k <= s.r0 - 1
    ensures Passes(s, cost, k) ==
      Round(Cpu(s.r0 - k, if k == 0 then s.flags else POSITIVE, s.budget - k * cost.Total()))
  {
    if k > 0 {
      AfterPasses(s, cost, k - 1);
      RoundAgain(Cpu(s.r0 - (k - 1), if k == 1 then s.flags else POSITIVE, s.budget - (k - 1) * cost.Total()), cost);
      assert (k - 1) * cost.Total() + cost.Total() == k * cost.Total();
    }
  }

  lemma RoundAgain(s: Cpu, cost: Cost)
    requires 2 <= s.r0 < 0x8000_0000
    ensures OnePass(s, cost) == Round(Cpu(s.r0 - 1, POSITIVE, s.budget - cost.Total()))
  {
  }

  /** The budget at the boundary before pass i, and between its two instructions. */
  function BudgetBefore(s: Cpu, cost: Cost, i: nat): int { s.budget - i * cost.Total() }
  function BudgetWithin(s: Cpu, cost: Cost, i: nat): int { BudgetBefore(s, cost, i) - cost.fetch }

  /** Every boundary skipped over still had budget, exactly when the last one did: when the refill
      costs something or cycles are left over. */
  lemma BudgetLasts(s: Cpu, cost: Cost, k: nat)
    requires s.budget > 0 && cost.Total() > 0 && 0 < k <= s.budget / cost.Total()
    ensures (forall i: nat | i < k :: BudgetBefore(s, cost, i) > 0 && BudgetWithin(s, cost, i) > 0)
       <==> cost.refill > 0 || s.budget > k * cost.Total()
  {
    Covered(s.budget, cost.Total(), k);
    var c := cost.Total();
    forall i: nat | i < k
      ensures BudgetBefore(s, cost, i) > 0 && BudgetWithin(s, cost, i) >= s.budget - k * c + cost.refill
    {
      MulOrder(i + 1, k, c);
      assert (i + 1) * c == i * c + c;
    }
    assert (k - 1) * c == k * c - c;
    assert BudgetWithin(s, cost, k - 1) == s.budget - k * c + cost.refill;
  }
}
