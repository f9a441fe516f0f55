/** Main-RAM burst patterns of src/core/dma/dma.cpp and the closed form of a run's cost. */
module DmaCost {
  import opened Basics

  /** One period of unit costs and its running sums. The table's byte array carries a zero
      after the period; here that is the end of `cycle`. */
  datatype Burst = Burst(cycle: seq<nat>, prefix: seq<nat>) {
    function Len(): nat { |cycle| }
  }

  function Sum(s: seq<nat>, k: nat): nat
    requires k <= |s|
  {
    if k == 0 then 0 else Sum(s, k - 1) + s[k - 1]
  }

  ghost predicate WellFormed(b: Burst) {
    && |b.prefix| == |b.cycle| + 1
    && (forall k | 0 <= k <= |b.cycle| :: b.prefix[k] == Sum(b.cycle, k))
    && forall k | 0 <= k < |b.cycle| :: b.cycle[k] > 0
  }

  datatype Run = Run(cost: nat, count: nat)

  function Repeat(c: nat, n: nat): (s: seq<nat>)
    ensures |s| == n && forall k | 0 <= k < n :: s[k] == c
  {
    if n == 0 then [] else Repeat(c, n - 1) + [c]
  }

  /** The run-length list written out, cut to 255 entries. */
  function Unroll(rle: seq<Run>, n: nat): (s: seq<nat>)
    requires n <= |rle|
    ensures |s| <= 255
    ensures (forall k | 0 <= k < n :: rle[k].cost > 0) ==> forall k | 0 <= k < |s| :: s[k] > 0
  {
    if n == 0 then []
    else
      var s := Unroll(rle, n - 1);
      s + Repeat(rle[n - 1].cost, Min(rle[n - 1].count, 255 - |s|))
  }

  function Prefixes(s: seq<nat>, n: nat): (p: seq<nat>)
    requires n <= |s|
    ensures |p| == n + 1 && forall k | 0 <= k <= n :: p[k] == Sum(s, k)
  {
    if n == 0 then [0] else Prefixes(s, n - 1) + [Sum(s, n)]
  }

  /** The table a run-length list stands for. */
  function BurstOf(rle: seq<Run>): (b: Burst)
    requires forall k | 0 <= k < |rle| :: rle[k].cost > 0
    ensures WellFormed(b)
  {
    var s := Unroll(rle, |rle|);
    Burst(s, Prefixes(s, |s|))
  }

  /** `make`: the pattern, then its prefix sums. */
  method Make(rle: seq<Run>) returns (b: Burst)
    requires forall k | 0 <= k < |rle| :: rle[k].cost > 0
    ensures b == BurstOf(rle)
  {
    var data: seq<nat> := [];
    for k := 0 to |rle|
      invariant data == Unroll(rle, k)
    {
      data := AppendRun(data, rle[k]);
    }
    var prefix: seq<nat> := [0];
    for k := 0 to |data|
      invariant prefix == Prefixes(data, k)
    {
      prefix := prefix + [prefix[k] + data[k]];
    }
    b := Burst(data, prefix);
  }

  method AppendRun(data: seq<nat>, r: Run) returns (d: seq<nat>)
    requires |data| <= 255
    ensures d == data + Repeat(r.cost, Min(r.count, 255 - |data|))
  {
    d := data;
    var k: nat := 0;
    while k < r.count && |d| < 255
      invariant k <= r.count && |d| <= 255 && d == data + Repeat(r.cost, k)
    {
      d := d + [r.cost];
      k := k + 1;
    }
  }

  // ---- the cyclic walk --------------------------------------------------------

  /** The cost of the unit at burst position `pos`; past the last entry the period restarts. */
  function Entry(b: Burst, pos: nat): nat
    requires b.Len() > 0
  {
    if pos < b.Len() then b.cycle[pos] else b.cycle[0]
  }

  function After(b: Burst, pos: nat): nat
    requires b.Len() > 0
  {
    if pos < b.Len() then pos + 1 else 1
  }

  /** n steps of `RunCost::next`: where they end ... */
  function WalkEnd(b: Burst, pos: nat, n: nat): (e: nat)
    requires pos <= b.Len() && b.Len() > 0
    ensures e <= b.Len()
  {
    if n == 0 then pos else After(b, WalkEnd(b, pos, n - 1))
  }

  /** ... and what they cost. */
  function WalkCost(b: Burst, pos: nat, n: nat): nat
    requires pos <= b.Len() && b.Len() > 0
  {
    if n == 0 then 0 else WalkCost(b, pos, n - 1) + Entry(b, WalkEnd(b, pos, n - 1))
  }

  // ---- the closed form --------------------------------------------------------

  /** `RunCost::bulk` on a burst table: the rest of the current period, whole periods, and a
      remainder, by prefix sums. */
  function Bulk(b: Burst, pos: nat, n: nat): int
    requires WellFormed(b) && pos <= b.Len() && b.Len() > 0
  {
    var P, S := b.Len(), b.prefix[b.Len()];
    var head := if P > pos then P - pos else 0;
    if n <= head then b.prefix[pos + n] - b.prefix[pos]
    else
      var m := n - head;
      ModBound(m, P);
      S - b.prefix[pos] + (m / P) * S + b.prefix[m % P]
  }

  function BulkEnd(b: Burst, pos: nat, n: nat): int
    requires WellFormed(b) && pos <= b.Len() && b.Len() > 0
  {
    var P := b.Len();
    var head := if P > pos then P - pos else 0;
    if n <= head then pos + n else (n - head - 1) % P + 1
  }

  lemma ModBound(m: nat, p: nat)
    requires p > 0
    ensures m % p < p
  {
  }

  /** Counting up by one: the remainder grows, or the quotient does and it restarts. */
  lemma DivModNext(m: nat, p: nat)
    requires p > 0
    ensures if m % p + 1 < p then (m + 1) / p == m / p && (m + 1) % p == m % p + 1
            else (m + 1) / p == m / p + 1 && (m + 1) % p == 0
  {
    var q, r := m / p, m % p;
    assert m == q * p + r;
    if r + 1 < p {
      DivModUnique(m + 1, p, q, r + 1);
    } else {
      assert m + 1 == (q + 1) * p;
      DivModUnique(m + 1, p, q + 1, 0);
    }
  }

  /** The closed form is the walk, in cost and in end position. */
  lemma {:induction false} BulkIsWalk(b: Burst, pos: nat, n: nat)
    requires WellFormed(b) && pos <= b.Len() && b.Len() > 0
    ensures Bulk(b, pos, n) == WalkCost(b, pos, n)
    ensures BulkEnd(b, pos, n) == WalkEnd(b, pos, n)
  {
    if n > 0 {
      BulkIsWalk(b, pos, n - 1);
      if n > Head(b, pos) {
        BulkStep(b, pos, n - Head(b, pos) - 1);
      } else {
        assert b.prefix[pos + n] == b.prefix[pos + n - 1] + b.cycle[pos + n - 1];
      }
    }
  }

  /** Whole periods and remainder of m entries that start a period. */
  function Wrapped(b: Burst, m: nat): int
    requires WellFormed(b) && b.Len() > 0
  {
    ModBound(m, b.Len());
    (m / b.Len()) * b.prefix[b.Len()] + b.prefix[m % b.Len()]
  }

  lemma WrappedNext(b: Burst, m: nat)
    requires WellFormed(b) && b.Len() > 0
    ensures m % b.Len() < b.Len()
    ensures Wrapped(b, m + 1) == Wrapped(b, m) + b.cycle[m % b.Len()]
  {
    var P, S := b.Len(), b.prefix[b.Len()];
    var q, r := m / P, m % P;
    ModBound(m, P);
    DivModNext(m, P);
    assert b.prefix[r + 1] == b.prefix[r] + b.cycle[r];
    assert (q + 1) * S == q * S + S;
  }

  function Head(b: Burst, pos: nat): nat { if b.Len() > pos then b.Len() - pos else 0 }

  /** Past the first period's end the position cycles through 1 .. P. */
  lemma EndStep(b: Burst, pos: nat, m: nat)
    requires WellFormed(b) && pos <= b.Len() && b.Len() > 0
    ensures m % b.Len() < b.Len()
    ensures Entry(b, BulkEnd(b, pos, Head(b, pos) + m)) == b.cycle[m % b.Len()]
    ensures BulkEnd(b, pos, Head(b, pos) + m + 1) == After(b, BulkEnd(b, pos, Head(b, pos) + m))
  {
    var P := b.Len();
    ModBound(m, P);
    if m == 0 {
      DivModUnique(0, P, 0, 0);
    } else {
      ModBound(m - 1, P);
      DivModNext(m - 1, P);
    }
  }

  lemma BulkStep(b: Burst, pos: nat, m: nat)
    requires WellFormed(b) && pos <= b.Len() && b.Len() > 0
    ensures var h := Head(b, pos);
            && Bulk(b, pos, h + m + 1) == Bulk(b, pos, h + m) + Entry(b, BulkEnd(b, pos, h + m))
            && BulkEnd(b, pos, h + m + 1) == After(b, BulkEnd(b, pos, h + m))
  {
    EndStep(b, pos, m);
    WrappedNext(b, m);
    BulkWrapped(b, pos, m + 1);
    BulkWrapped(b, pos, m);
  }

  lemma BulkWrapped(b: Burst, pos: nat, m: nat)
    requires WellFormed(b) && pos <= b.Len() && b.Len() > 0
    ensures Bulk(b, pos, Head(b, pos) + m)
         == b.prefix[b.Len()] - b.prefix[pos] + Wrapped(b, m)
  {
    if m == 0 {
      WrappedZero(b);
    }
  }

  lemma WrappedZero(b: Burst)
    requires WellFormed(b) && b.Len() > 0
    ensures Wrapped(b, 0) == 0
  {
    DivModUnique(0, b.Len(), 0, 0);
  }

  lemma {:induction false} WalkCostGrows(b: Burst, pos: nat, j: nat, n: nat)
    requires WellFormed(b) && pos <= b.Len() && b.Len() > 0 && j <= n
    ensures WalkCost(b, pos, j) <= WalkCost(b, pos, n)
    ensures j < n ==> WalkCost(b, pos, j) < WalkCost(b, pos, n)
    decreases n
  {
    if j < n { WalkCostGrows(b, pos, j, n - 1); }
  }

  // ---- a run's cost ------------------------------------------------------------

  /** `Dma::RunCost`: a burst table in force, or one constant for every unit. */
  datatype RunCost = Constant(c: nat) | Table(b: Burst)

  ghost predicate ClosedForm(rc: RunCost, pos: nat) {
    rc.Table? ==> WellFormed(rc.b) && rc.b.Len() > 0 && pos <= rc.b.Len()
  }

  /** n further units: cost and burst position, one unit at a time. */
  function Cost(rc: RunCost, pos: nat, n: nat): nat
    requires ClosedForm(rc, pos)
  {
    match rc
    case Constant(c) => c * n
    case Table(b) => WalkCost(b, pos, n)
  }

  function EndPos(rc: RunCost, pos: nat, n: nat): nat
    requires ClosedForm(rc, pos)
  {
    match rc
    case Constant(_) => pos
    case Table(b) => WalkEnd(b, pos, n)
  }

  method BulkCost(rc: RunCost, pos: nat, n: nat) returns (cost: nat, endPos: nat)
    requires ClosedForm(rc, pos)
    ensures cost == Cost(rc, pos, n) && endPos == EndPos(rc, pos, n)
  {
    match rc
    case Constant(c) =>
      cost, endPos := c * n, pos;
    case Table(b) =>
      BulkIsWalk(b, pos, n);
      cost, endPos := Bulk(b, pos, n), BulkEnd(b, pos, n);
  }

  lemma CostGrows(rc: RunCost, pos: nat, j: nat, n: nat)
    requires ClosedForm(rc, pos) && j <= n
    ensures Cost(rc, pos, j) <= Cost(rc, pos, n)
  {
    match rc
    case Constant(c) =>
      assert c * n == c * j + c * (n - j);
    case Table(b) => WalkCostGrows(b, pos, j, n);
  }

  lemma CostScales(rc: RunCost, pos: nat, j: nat, n: nat, scale: nat)
    requires ClosedForm(rc, pos) && j <= n
    ensures Cost(rc, pos, j) * scale <= Cost(rc, pos, n) * scale
  {
    CostGrows(rc, pos, j, n);
    MulOrder(Cost(rc, pos, j), Cost(rc, pos, n), scale);
  }

  /** k units can be taken before the budget cuts in: the k - 1 payments after the first one
      leave it unspent. */
  predicate Affordable(rc: RunCost, pos: nat, k: nat, used: nat, scale: nat, budget: nat)
    requires ClosedForm(rc, pos)
  {
    k == 1 || (k > 1 && used + Cost(rc, pos, k - 1) * scale < budget)
  }

  /** The budget cut: the whole run if it fits, else by bisection, the most units affordable. */
  method Cut(rc: RunCost, pos: nat, n: nat, used: nat, scale: nat, budget: nat) returns (lo: nat)
    requires ClosedForm(rc, pos) && n >= 1
    ensures 1 <= lo <= n && Affordable(rc, pos, lo, used, scale, budget)
    ensures forall k | lo < k <= n :: !Affordable(rc, pos, k, used, scale, budget)
  {
    var c, e := BulkCost(rc, pos, n - 1);
    if used + c * scale < budget {
      return n;
    }
    lo := 1;
    var hi := n;
    while lo < hi
      invariant 1 <= lo <= hi <= n
      invariant Affordable(rc, pos, lo, used, scale, budget)
      invariant forall k | hi < k <= n :: !Affordable(rc, pos, k, used, scale, budget)
    {
      var mid := lo + (hi - lo + 1) / 2;
      c, e := BulkCost(rc, pos, mid - 1);
      if used + c * scale < budget {
        lo := mid;
      } else {
        forall k | mid <= k <= n ensures !Affordable(rc, pos, k, used, scale, budget) {
          CostScales(rc, pos, mid - 1, k - 1, scale);
        }
        hi := mid - 1;
      }
    }
  }
}
