/** The re-check of a loop's loads at every query (src/core/cpu/idle_loop.cpp): which addresses it
    lets a skipped loop poll, and when the address it looks at is the one the loop reads. */
module IdleCheck {
  import opened IdleLoop

  const GXSTAT := 0x0400_0600
  const SPICNT := 0x0400_01C0

  /** Which registers the caller lets a loop poll. */
  datatype Ports = RamOnly | GxstatOnly | SpicntOnly | All

  /** Registers that change at scheduled events only. */
  predicate Steady(port: nat)
  {
    port in {0x0400_0180, 0x0400_0184, 0x0400_0208, 0x0400_020C, 0x0400_0210, 0x0400_0214, GXSTAT}
  }

  predicate IsIo(addr: nat) { addr / 0x100_0000 % 16 == 4 }

  function Port(addr: nat): nat { addr % 0x1000_0000 / 4 * 4 }

  /** An address a skipped loop may poll. */
  predicate Safe(ram: nat -> bool, ports: Ports, addr: nat)
  {
    || ram(addr)
    || (IsIo(addr) && match ports
                      case RamOnly => false
                      case All => Steady(Port(addr))
                      case GxstatOnly => Port(addr) == GXSTAT
                      case SpicntOnly => Port(addr) == SPICNT)
  }

  /** A poll of GXSTAT itself. */
  predicate PollsGxstat(ram: nat -> bool, addr: nat)
  {
    !ram(addr) && IsIo(addr) && Port(addr) == GXSTAT
  }

  /** What may be polled outside RAM, in each of the sixteen images of the register space: IPCSYNC and
      IPCFIFOCNT, IME to IF, GXSTAT; or one register alone; or nothing. */
  lemma SafeExactly(ram: nat -> bool, ports: Ports, addr: nat)
    requires addr < 0x1_0000_0000 && !ram(addr)
    ensures var at := addr % 0x1000_0000;
      Safe(ram, ports, addr) <==>
        match ports
        case RamOnly => false
        case GxstatOnly => 0x0400_0600 <= at < 0x0400_0604
        case SpicntOnly => 0x0400_01C0 <= at < 0x0400_01C4
        case All =>
          0x0400_0180 <= at < 0x0400_0188 || 0x0400_0208 <= at < 0x0400_0218 || 0x0400_0600 <= at < 0x0400_0604
    ensures PollsGxstat(ram, addr) <==> 0x0400_0600 <= addr % 0x1000_0000 < 0x0400_0604
  {
    IoImage(addr);
  }

  lemma IoImage(addr: nat)
    requires addr < 0x1_0000_0000
    ensures IsIo(addr) <==> 0x0400_0000 <= addr % 0x1000_0000 < 0x0500_0000
  {
    var top, at := addr / 0x1000_0000, addr % 0x1000_0000;
    assert addr / 0x100_0000 == 16 * top + at / 0x100_0000;
  }

  /** The address a load site stands for, with the registers as they are. */
  function Where(site: LoadSite, regs: seq<int>): nat
    requires |regs| == REGS && SiteOk(site)
  {
    match site
    case Absolute(addr) => addr % 0x1_0000_0000
    case Based(base, offset) => (regs[base] + offset) % 0x1_0000_0000
  }

  predicate SiteOk(site: LoadSite) { site.Based? ==> site.base < REGS }

  ghost predicate SitesOk(sites: seq<LoadSite>)
  {
    forall k | 0 <= k < |sites| :: SiteOk(sites[k])
  }

  /** Every load polls what it may, with the registers as they are. */
  ghost predicate AllSafe(sites: seq<LoadSite>, regs: seq<int>, ram: nat -> bool, ports: Ports)
    requires |regs| == REGS
  {
    forall k | 0 <= k < |sites| :: SiteOk(sites[k]) ==> Safe(ram, ports, Where(sites[k], regs))
  }

  /** The loop of `in_idle_loop` over the loads of a skippable verdict. */
  method Requery(sites: seq<LoadSite>, regs: seq<int>, ram: nat -> bool, ports: Ports) returns (yes: bool)
    requires |regs| == REGS && SitesOk(sites)
    ensures yes == (AllSafe(sites, regs, ram, ports)
                    && (ports.GxstatOnly? ==> exists k | 0 <= k < |sites| :: PollsGxstat(ram, Where(sites[k], regs))))
  {
    var gxstat, i := false, 0;
    while i < |sites|
      invariant i <= |sites| && forall k | 0 <= k < i :: Safe(ram, ports, Where(sites[k], regs))
      invariant gxstat == (ports.GxstatOnly? && exists k | 0 <= k < i :: PollsGxstat(ram, Where(sites[k], regs)))
    {
      var addr := Where(sites[i], regs);
      if !Safe(ram, ports, addr) {
        return false;
      }
      if ports.GxstatOnly? && !ram(addr) {
        gxstat := true;
      }
      i := i + 1;
    }
    return ports.GxstatOnly? ==> gxstat;
  }

  // ---- the registers at a point of the loop --------------------------------------------------

  /** The registers when a pass from k reaches instruction n, if it does. */
  function Reach(m: Meaning, body: seq<Instr>, k: nat, n: nat, regs: seq<int>): seq<int>
    requires k <= n < |body|
    decreases n - k
  {
    if k == n then regs else Reach(m, body, k + 1, n, if body[k].op.Branch? then regs else m.exec(k, regs))
  }

  /** No instruction from k up to n writes r. */
  predicate Quiet(body: seq<Instr>, r: nat, k: nat, n: nat)
    requires k <= n <= |body|
  {
    forall j | k <= j < n :: r !in Writes(body[j])
  }

  /** Going round the loop from instruction p to q, or from q to p, nothing writes r. */
  predicate Undisturbed(body: seq<Instr>, r: nat, p: nat, q: nat)
    requires p < |body| && q < |body|
  {
    var lo, hi := if p < q then p else q, if p < q then q else p;
    Quiet(body, r, lo, hi) || (Quiet(body, r, hi, |body|) && Quiet(body, r, 0, lo))
  }

  lemma {:induction false} PassResumes(m: Meaning, body: seq<Instr>, k: nat, n: nat, regs: seq<int>)
    requires k <= n < |body| && Pass(m, body, k, regs).Back?
    ensures Pass(m, body, n, Reach(m, body, k, n, regs)) == Pass(m, body, k, regs)
    decreases n - k
  {
    if k < n {
      PassResumes(m, body, k + 1, n, if body[k].op.Branch? then regs else m.exec(k, regs));
    }
  }

  lemma {:induction false} ReachResumes(m: Meaning, body: seq<Instr>, k: nat, p: nat, n: nat, regs: seq<int>)
    requires k <= p <= n < |body|
    ensures Reach(m, body, p, n, Reach(m, body, k, p, regs)) == Reach(m, body, k, n, regs)
    decreases p - k
  {
    if k < p {
      ReachResumes(m, body, k + 1, p, n, if body[k].op.Branch? then regs else m.exec(k, regs));
    }
  }

  lemma {:induction false} ReachKeeps(m: Meaning, body: seq<Instr>, k: nat, n: nat, regs: seq<int>, r: nat)
    requires RespectsAll(m, body) && k <= n < |body| && |regs| == REGS && r < REGS
    ensures |Reach(m, body, k, n, regs)| == REGS
    ensures Quiet(body, r, k, n) ==> Reach(m, body, k, n, regs)[r] == regs[r]
    decreases n - k
  {
    if k < n {
      assert Respects(m, body[k], k);
      ReachKeeps(m, body, k + 1, n, if body[k].op.Branch? then regs else m.exec(k, regs), r);
    }
  }

  lemma {:induction false} PassKeeps(m: Meaning, body: seq<Instr>, k: nat, regs: seq<int>, r: nat)
    requires RespectsAll(m, body) && k < |body| && |regs| == REGS && r < REGS && Pass(m, body, k, regs).Back?
    requires Quiet(body, r, k, |body|)
    ensures var o := Pass(m, body, k, regs); |o.regs| == REGS && o.regs[r] == regs[r]
    decreases |body| - k
  {
    if k < |body| - 1 {
      assert Respects(m, body[k], k);
      PassKeeps(m, body, k + 1, if body[k].op.Branch? then regs else m.exec(k, regs), r);
    }
  }

  /** In the pass after one that went round, register r is the same at p and at q. */
  ghost predicate SameAt(m: Meaning, body: seq<Instr>, regs: seq<int>, r: nat, p: nat, q: nat)
    requires p < |body| && q < |body| && r < REGS
  {
    var next := Pass(m, body, 0, regs).regs;
    var a, b := Reach(m, body, 0, p, next), Reach(m, body, 0, q, next);
    |a| == |b| == REGS && a[r] == b[r]
  }

  /** A loop of this meaning that has gone round once. */
  ghost predicate Round(m: Meaning, body: seq<Instr>, regs: seq<int>)
    requires |body| > 0
  {
    RespectsAll(m, body) && |regs| == REGS && Pass(m, body, 0, regs).Back?
  }

  lemma SameInOrder(m: Meaning, body: seq<Instr>, head: nat, regs: seq<int>, r: nat, lo: nat, hi: nat)
    requires Accepted(body, head) && Plain(body, head) && Round(m, body, regs) && r < REGS && lo <= hi < |body|
    requires Undisturbed(body, r, lo, hi)
    ensures SameAt(m, body, regs, r, lo, hi)
  {
    PassLength(m, body, 0, regs);
    FixedPoint(m, body, head, regs);
    var next := Pass(m, body, 0, regs).regs;
    var a, b := Reach(m, body, 0, lo, next), Reach(m, body, 0, hi, next);
    ReachKeeps(m, body, 0, lo, next, r);
    ReachKeeps(m, body, 0, hi, next, r);
    if Quiet(body, r, lo, hi) {
      ReachResumes(m, body, 0, lo, hi, next);
      ReachKeeps(m, body, lo, hi, a, r);
    } else {
      PassResumes(m, body, 0, hi, next);
      PassKeeps(m, body, hi, b, r);
    }
  }

  // ---- a meaning that tells writes apart -------------------------------------------------------

  /** Instruction k leaves k + 1 in what it writes, and only the back edge is taken. */
  function Stamping(body: seq<Instr>): Meaning
  {
    Meaning((k: nat, a: seq<int>) => Stamped(body, k, a), (k: nat, a: seq<int>) => k == |body| - 1)
  }

  function Stamped(body: seq<Instr>, k: nat, a: seq<int>): (b: seq<int>)
    ensures |b| == |a|
  {
    if k < |body| then seq(|a|, x requires 0 <= x < |a| => if x in Writes(body[k]) then k + 1 else a[x]) else a
  }

  lemma StampingRespects(body: seq<Instr>)
    ensures RespectsAll(Stamping(body), body)
  {
  }

  /** Every pass of it goes round. */
  lemma {:induction false} StampingRound(body: seq<Instr>, k: nat, regs: seq<int>)
    requires k < |body|
    ensures Pass(Stamping(body), body, k, regs).Back?
    decreases |body| - k
  {
    if k < |body| - 1 {
      StampingRound(body, k + 1, if body[k].op.Branch? then regs else Stamped(body, k, regs));
    }
  }

  /** A register written between k and n holds a stamp from between them. */
  lemma {:induction false} StampAt(body: seq<Instr>, k: nat, n: nat, regs: seq<int>, r: nat)
    requires k <= n < |body| && |regs| == REGS && r < REGS && !Quiet(body, r, k, n)
    ensures var s := Reach(Stamping(body), body, k, n, regs); |s| == REGS && k < s[r] <= n
    decreases n - k
  {
    var m := Stamping(body);
    StampingRespects(body);
    var after := if body[k].op.Branch? then regs else m.exec(k, regs);
    if Quiet(body, r, k + 1, n) {
      ReachKeeps(m, body, k + 1, n, after, r);
    } else {
      StampAt(body, k + 1, n, after, r);
    }
  }

  lemma StampAtEnd(body: seq<Instr>, k: nat, regs: seq<int>, r: nat)
    requires k < |body| && |regs| == REGS && r < REGS && body[|body| - 1].op.Branch? && !Quiet(body, r, k, |body|)
    ensures var o := Pass(Stamping(body), body, k, regs); |o.regs| == REGS && k < o.regs[r]
  {
    var m, last := Stamping(body), |body| - 1;
    StampingRound(body, k, regs);
    PassResumes(m, body, k, last, regs);
    StampAt(body, k, last, regs, r);
  }

  lemma DifferInOrder(body: seq<Instr>, head: nat, regs: seq<int>, r: nat, lo: nat, hi: nat)
    requires Accepted(body, head) && Plain(body, head) && |regs| == REGS && r < REGS && lo <= hi < |body|
    requires !Undisturbed(body, r, lo, hi)
    ensures !SameAt(Stamping(body), body, regs, r, lo, hi)
  {
    var m := Stamping(body);
    StampingRespects(body);
    StampingRound(body, 0, regs);
    PassLength(m, body, 0, regs);
    FixedPoint(m, body, head, regs);
    var next := Pass(m, body, 0, regs).regs;
    var a, b := Reach(m, body, 0, lo, next), Reach(m, body, 0, hi, next);
    ReachKeeps(m, body, 0, lo, next, r);
    ReachResumes(m, body, 0, lo, hi, next);
    StampAt(body, lo, hi, a, r);
    assert lo < b[r] <= hi;
    if !Quiet(body, r, 0, lo) {
      StampAt(body, 0, lo, next, r);
    } else {
      PassResumes(m, body, 0, hi, next);
      StampAtEnd(body, hi, b, r);
    }
  }

  /** The query looks at a load's own base, whatever the instructions mean, exactly when going
      round the loop one way or the other nothing between the query and the load writes it. */
  lemma CheckedExactly(body: seq<Instr>, head: nat, r: nat, n: nat, q: nat)
    requires Accepted(body, head) && Plain(body, head) && r < REGS && n < |body| && q < |body|
    ensures (forall m: Meaning, regs: seq<int> | Round(m, body, regs) :: SameAt(m, body, regs, r, n, q)) <==>
      Undisturbed(body, r, n, q)
  {
    if Undisturbed(body, r, n, q) {
      forall m: Meaning, regs: seq<int> | Round(m, body, regs) ensures SameAt(m, body, regs, r, n, q) {
        CheckedBase(m, body, head, regs, r, n, q);
      }
    } else {
      var lo, hi := if n < q then n else q, if n < q then q else n;
      var regs := seq(REGS, _ => 0);
      StampingRespects(body);
      StampingRound(body, 0, regs);
      DifferInOrder(body, head, regs, r, lo, hi);
      assert Round(Stamping(body), body, regs) && !SameAt(Stamping(body), body, regs, r, n, q);
    }
  }

  lemma CheckedBase(m: Meaning, body: seq<Instr>, head: nat, regs: seq<int>, r: nat, n: nat, q: nat)
    requires Accepted(body, head) && Plain(body, head) && Round(m, body, regs) && r < REGS && n < |body| && q < |body|
    requires Undisturbed(body, r, n, q)
    ensures SameAt(m, body, regs, r, n, q)
  {
    SameInOrder(m, body, head, regs, r, if n < q then n else q, if n < q then q else n);
  }

  // ---- what a query that says yes promises -----------------------------------------------------

  lemma {:induction false} SiteListed(body: seq<Instr>, head: nat, n: nat, k: nat)
    requires n < k <= |body| && body[n].op.LdrStr?
    ensures Site(body[n], head + 4 * n) in Sites(body, head, k)
  {
    if k > n + 1 {
      SiteListed(body, head, n, k - 1);
    }
  }

  lemma {:induction false} SitesAreOk(body: seq<Instr>, head: nat, k: nat)
    requires k <= |body|
    ensures SitesOk(Sites(body, head, k))
  {
    if k > 0 {
      SitesAreOk(body, head, k - 1);
    }
  }

  /** A load polls what a query elsewhere has looked at, if its base is the same there. */
  lemma SafeHereToo(i: Instr, at: nat, sites: seq<LoadSite>, there: seq<int>, here: seq<int>, ram: nat -> bool,
                    ports: Ports)
    requires i.op.LdrStr? && |there| == |here| == REGS && SitesOk(sites) && Site(i, at) in sites
    requires AllSafe(sites, there, ram, ports)
    requires i.op.rn == PC || there[i.op.rn] == here[i.op.rn]
    ensures Safe(ram, ports, (if i.op.rn == 15 then at + 8 + i.op.offset
                              else here[i.op.rn] + i.op.offset) % 0x1_0000_0000)
  {
    var k :| 0 <= k < |sites| && sites[k] == Site(i, at);
    assert Safe(ram, ports, Where(sites[k], there));
  }

  lemma LoadSafe(body: seq<Instr>, head: nat, n: nat, there: seq<int>, here: seq<int>, ram: nat -> bool, ports: Ports)
    requires n < |body| && body[n].op.LdrStr? && |there| == |here| == REGS
    requires AllSafe(Sites(body, head, |body|), there, ram, ports)
    requires body[n].op.rn == PC || there[body[n].op.rn] == here[body[n].op.rn]
    ensures Safe(ram, ports, (if body[n].op.rn == 15 then head + 4 * n + 8 + body[n].op.offset
                              else here[body[n].op.rn] + body[n].op.offset) % 0x1_0000_0000)
  {
    SiteListed(body, head, n, |body|);
    SitesAreOk(body, head, |body|);
    SafeHereToo(body[n], head + 4 * n, Sites(body, head, |body|), there, here, ram, ports);
  }

  /** The base of every load holds from the query to the load. */
  predicate BasesHold(body: seq<Instr>, q: nat)
    requires q < |body|
  {
    forall n | 0 <= n < |body| && body[n].op.LdrStr? && body[n].op.rn != PC :: Undisturbed(body, body[n].op.rn, n, q)
  }

  /** From a query at q to load n of the next pass: the base register holds. */
  lemma QueryBase(m: Meaning, body: seq<Instr>, head: nat, regs: seq<int>, q: nat, n: nat)
    requires Accepted(body, head) && Plain(body, head) && Round(m, body, regs) && q < |body| && BasesHold(body, q)
    requires n < |body| && body[n].op.LdrStr?
    ensures var next := Pass(m, body, 0, regs).regs;
      var there, here := Reach(m, body, 0, q, next), Reach(m, body, 0, n, next);
      |there| == |here| == REGS && (body[n].op.rn == PC || there[body[n].op.rn] == here[body[n].op.rn])
  {
    PassLength(m, body, 0, regs);
    ReachKeeps(m, body, 0, n, Pass(m, body, 0, regs).regs, 0);
    ReachKeeps(m, body, 0, q, Pass(m, body, 0, regs).regs, 0);
    if body[n].op.rn != PC {
      CheckedBase(m, body, head, regs, body[n].op.rn, n, q);
    }
  }

  /** A query at instruction q that lets every load's address through, with the registers `there`, is
      right about the next pass: each of its loads polls an address that may be polled, with the
      registers `used` where it stands. */
  lemma QuerySound(m: Meaning, body: seq<Instr>, head: nat, regs: seq<int>, q: nat, n: nat, ram: nat -> bool,
                   ports: Ports, there: seq<int>, used: seq<int>)
    requires Accepted(body, head) && Plain(body, head) && Round(m, body, regs) && q < |body| && BasesHold(body, q)
    requires n < |body| && body[n].op.LdrStr?
    requires there == Reach(m, body, 0, q, Pass(m, body, 0, regs).regs)
    requires used == Reach(m, body, 0, n, Pass(m, body, 0, regs).regs)
    requires |there| == REGS && AllSafe(Sites(body, head, |body|), there, ram, ports)
    ensures |used| == REGS && Safe(ram, ports, (if body[n].op.rn == 15 then head + 4 * n + 8 + body[n].op.offset
                                                else used[body[n].op.rn] + body[n].op.offset) % 0x1_0000_0000)
  {
    QueryBase(m, body, head, regs, q, n);
    LoadSafe(body, head, n, there, used, ram, ports);
  }
}
