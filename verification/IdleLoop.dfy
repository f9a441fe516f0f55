/** Polling-loop detection (src/core/cpu/idle_loop.cpp): what the dataflow scan of a loop body
    accepts, and that an accepted loop repeats itself until memory changes. */
module IdleLoop {

  const MAX_BODY := 16
  const MAX_SEARCH := 16
  const MAX_LOADS := 4
  const FLAGS := 16      // pseudo-register for the condition flags
  const REGS := 17
  const PC := 15
  const ALWAYS := 0xE
  const NEVER := 0xF     // the unconditional encoding space

  datatype Shift = Imm | ImmShift | RegShift

  /** A decoded instruction, without its condition. */
  datatype Op =
    | Dp(shift: Shift, opcode: nat, s: bool, rd: nat, rn: nat, rm: nat, rs: nat)
    | Mrs(rd: nat)
    | Clz(rd: nat, rm: nat)
    | Mul(acc: bool, s: bool, rd: nat, ra: nat, rm: nat, rs: nat)
    | LdrStr(load: bool, pre: bool, writeback: bool, rd: nat, rn: nat, offset: int)
    | Branch(target: nat)
    | Other
  {
    /** Register fields are four bits wide. */
    predicate Ok()
    {
      match this
      case Dp(_, opcode, _, rd, rn, rm, rs) => opcode < 16 && rd < 16 && rn < 16 && rm < 16 && rs < 16
      case Mrs(rd) => rd < 16
      case Clz(rd, rm) => rd < 16 && rm < 16
      case Mul(_, _, rd, ra, rm, rs) => rd < 16 && ra < 16 && rm < 16 && rs < 16
      case LdrStr(_, _, _, rd, rn, _) => rd < 16 && rn < 16
      case _ => true
    }
  }

  datatype RawInstr = Instr(cond: nat, op: Op)
  type Instr = i: RawInstr | i.cond < 16 && i.op.Ok() witness Instr(ALWAYS, Other)

  /** A load to re-check at each query: off a register, or absolute. */
  datatype LoadSite = Based(base: nat, offset: int) | Absolute(addr: int)

  // ---- what the scan records of one instruction ------------------------------------------

  predicate Compares(opcode: nat) { 8 <= opcode <= 11 }
  predicate Moves(opcode: nat) { opcode == 13 || opcode == 15 }
  predicate UsesCarry(opcode: nat) { 5 <= opcode <= 7 }

  /** Registers and flags the scan takes the instruction to read. */
  function Reads(i: Instr): (s: set<nat>)
    ensures forall r | r in s :: r < REGS
  {
    (if i.cond != ALWAYS then {FLAGS} else {}) +
    match i.op
    case Dp(shift, opcode, _, _, rn, rm, rs) =>
      (if Moves(opcode) then {} else {rn}) + (if shift == Imm then {} else {rm})
      + (if shift == RegShift then {rs} else {}) + (if UsesCarry(opcode) then {FLAGS} else {})
    case Clz(_, rm) => {rm}
    case Mul(acc, _, _, ra, rm, rs) => {rm, rs} + if acc then {ra} else {}
    case LdrStr(_, _, _, _, rn, _) => if rn == PC then {} else {rn}
    case _ => {}
  }

  /** ... and to write. */
  function Writes(i: Instr): (s: set<nat>)
    ensures forall r | r in s :: r < REGS
  {
    match i.op
    case Dp(_, opcode, s, rd, _, _, _) => if Compares(opcode) then {FLAGS} else {rd} + if s then {FLAGS} else {}
    case Mrs(rd) => {rd}
    case Clz(rd, _) => {rd}
    case Mul(_, s, rd, _, _, _) => {rd} + if s then {FLAGS} else {}
    case LdrStr(_, _, _, rd, _, _) => {rd}
    case _ => {}
  }

  /** The instruction forms the scan lets into a body. */
  predicate Allowed(i: Instr, at: nat, head: nat, tail: nat)
  {
    && i.cond != NEVER
    && match i.op
       case Dp(_, opcode, _, rd, _, _, _) => Compares(opcode) || rd != PC
       case Mrs(rd) => rd != PC
       case Clz(rd, _) => rd != PC
       case Mul(_, _, rd, _, _, _) => rd != PC
       case LdrStr(load, pre, writeback, rd, _, _) => load && pre && !writeback && rd != PC
       case Branch(target) => !(i.cond == ALWAYS && !(head <= target <= tail) && at != tail)
       case Other => false
  }

  function Site(i: Instr, at: nat): LoadSite
    requires i.op.LdrStr?
  {
    if i.op.rn == PC then Absolute(at + 8 + i.op.offset) else Based(i.op.rn, i.op.offset)
  }

  // ---- the first n instructions of a body --------------------------------------------------

  function Written(body: seq<Instr>, n: nat): set<nat>
    requires n <= |body|
  {
    if n == 0 then {} else Written(body, n - 1) + Writes(body[n - 1])
  }

  function ReadFirst(body: seq<Instr>, n: nat): set<nat>
    requires n <= |body|
  {
    if n == 0 then {} else ReadFirst(body, n - 1) + (Reads(body[n - 1]) - Written(body, n - 1))
  }

  function Sites(body: seq<Instr>, head: nat, n: nat): seq<LoadSite>
    requires n <= |body|
  {
    if n == 0 then []
    else Sites(body, head, n - 1) + if body[n - 1].op.LdrStr? then [Site(body[n - 1], head + 4 * (n - 1))] else []
  }

  predicate AllAllowed(body: seq<Instr>, head: nat, n: nat)
    requires n <= |body|
  {
    forall k | 0 <= k < n :: Allowed(body[k], head + 4 * k, head, head + 4 * (|body| - 1))
  }

  /** The body of a polling loop, as far as the scan can tell: nothing carried across the back
      edge, and at least one load. */
  predicate Accepted(body: seq<Instr>, head: nat)
  {
    && 0 < |body| <= MAX_BODY && AllAllowed(body, head, |body|)
    && 0 < |Sites(body, head, |body|)| <= MAX_LOADS
    && Written(body, |body|) * ReadFirst(body, |body|) == {}
  }

  // ---- running a body ------------------------------------------------------------------------

  /** One pass: out through a branch or past the last instruction, or back to the head. */
  datatype Outcome = Exit(at: nat, regs: seq<int>) | Back(regs: seq<int>)

  /** What the instructions do while memory stays as it is, by position in the body. */
  datatype Meaning = Meaning(exec: (nat, seq<int>) -> seq<int>, taken: (nat, seq<int>) -> bool)

  ghost predicate Agree(a: seq<int>, b: seq<int>, on: set<nat>)
  {
    |a| == |b| == REGS && forall r: nat | r < REGS && r in on :: a[r] == b[r]
  }

  /** An instruction whose result depends on what the scan says it reads, and which changes what
      the scan says it writes; a branch goes by the flags. */
  ghost predicate Respects(m: Meaning, i: Instr, k: nat)
  {
    && (forall a: seq<int> | |a| == REGS :: |m.exec(k, a)| == REGS)
    && (forall a: seq<int>, r: nat | |a| == REGS && r < REGS && r !in Writes(i) :: m.exec(k, a)[r] == a[r])
    && (forall a: seq<int>, b: seq<int> | Agree(a, b, Reads(i)) :: Agree(m.exec(k, a), m.exec(k, b), Writes(i)))
    && (forall a: seq<int>, b: seq<int> | Agree(a, b, Reads(i)) :: m.taken(k, a) == m.taken(k, b))
  }

  ghost predicate RespectsAll(m: Meaning, body: seq<Instr>)
  {
    forall k | 0 <= k < |body| :: Respects(m, body[k], k)
  }

  /** One pass from instruction k. Branches before the last leave the loop. */
  function Pass(m: Meaning, body: seq<Instr>, k: nat, regs: seq<int>): Outcome
    requires k < |body|
    decreases |body| - k
  {
    if k == |body| - 1 then if m.taken(k, regs) then Back(regs) else Exit(k, regs)
    else if body[k].op.Branch? then if m.taken(k, regs) then Exit(k, regs) else Pass(m, body, k + 1, regs)
    else Pass(m, body, k + 1, m.exec(k, regs))
  }

  /** The registers at the head after n passes, as long as none exits. */
  function Passes(m: Meaning, body: seq<Instr>, n: nat, regs: seq<int>): Outcome
    requires |body| > 0
  {
    if n == 0 then Back(regs)
    else
      match Passes(m, body, n - 1, regs)
      case Back(r) => Pass(m, body, 0, r)
      case Exit(k, r) => Exit(k, r)
  }

  /** A body without predicated instructions whose branches leave the loop, but for the back edge
      it ends with. */
  predicate Plain(body: seq<Instr>, head: nat)
  {
    && |body| > 0 && body[|body| - 1].op == Branch(head)
    && forall k | 0 <= k < |body| - 1 ::
         if body[k].op.Branch? then !(head <= body[k].op.target <= head + 4 * (|body| - 1)) else body[k].cond == ALWAYS
  }

  // ---- soundness ------------------------------------------------------------------------------

  lemma {:induction false} ScanGrows(body: seq<Instr>, k: nat, n: nat)
    requires k <= n <= |body|
    ensures Written(body, k) <= Written(body, n) && ReadFirst(body, k) <= ReadFirst(body, n)
    decreases n - k
  {
    if k < n {
      ScanGrows(body, k, n - 1);
    }
  }

  /** A pass changes only what the body writes. */
  lemma {:induction false} PassFrame(m: Meaning, body: seq<Instr>, k: nat, regs: seq<int>, r: nat)
    requires RespectsAll(m, body) && k < |body| && |regs| == REGS && r < REGS && r !in Written(body, |body|)
    ensures var o := Pass(m, body, k, regs); |o.regs| == REGS && o.regs[r] == regs[r]
    decreases |body| - k
  {
    if k < |body| - 1 {
      assert Respects(m, body[k], k);
      if body[k].op.Branch? {
        PassFrame(m, body, k + 1, regs, r);
      } else {
        ScanGrows(body, k + 1, |body|);
        PassFrame(m, body, k + 1, m.exec(k, regs), r);
      }
    }
  }

  /** Two passes in lockstep agree on what they have written so far and on what the body never
      writes. */
  ghost predicate Settled(a: seq<int>, b: seq<int>, written: set<nat>, all: set<nat>)
  {
    |a| == |b| == REGS && forall r: nat | r < REGS && (r in written || r !in all) :: a[r] == b[r]
  }

  ghost predicate Frame(a: seq<int>, a': seq<int>, writes: set<nat>)
  {
    |a| == |a'| == REGS && forall r: nat | r < REGS && r !in writes :: a'[r] == a[r]
  }

  /** One instruction in lockstep, as sets: it reads nothing the passes differ on. */
  lemma StepSets(rd: set<nat>, wr: set<nat>, written: set<nat>, all: set<nat>, first: set<nat>,
                 a: seq<int>, b: seq<int>, a': seq<int>, b': seq<int>)
    requires Settled(a, b, written, all) && all * first == {} && rd - written <= first
    requires Frame(a, a', wr) && Frame(b, b', wr) && (Agree(a, b, rd) ==> Agree(a', b', wr))
    ensures Agree(a, b, rd) && Settled(a', b', written + wr, all)
  {
    forall r: nat | r < REGS && r in rd
      ensures a[r] == b[r]
    {
      if r !in written {
        assert r in rd - written;
        assert r in all && r in first ==> r in all * first;
      }
    }
  }

  /** The sets of one step of the scan, within those of the whole. */
  lemma ScanStep(body: seq<Instr>, k: nat)
    requires k < |body|
    ensures Written(body, k + 1) == Written(body, k) + Writes(body[k])
    ensures Reads(body[k]) - Written(body, k) <= ReadFirst(body, |body|)
  {
    ScanGrows(body, k + 1, |body|);
  }

  lemma StepAgrees(m: Meaning, body: seq<Instr>, k: nat, a: seq<int>, b: seq<int>)
    requires RespectsAll(m, body) && k < |body| && Settled(a, b, Written(body, k), Written(body, |body|))
    requires Written(body, |body|) * ReadFirst(body, |body|) == {}
    ensures Agree(a, b, Reads(body[k]))
    ensures Settled(m.exec(k, a), m.exec(k, b), Written(body, k + 1), Written(body, |body|))
  {
    ScanStep(body, k);
    assert Respects(m, body[k], k);
    StepSets(Reads(body[k]), Writes(body[k]), Written(body, k), Written(body, |body|), ReadFirst(body, |body|),
             a, b, m.exec(k, a), m.exec(k, b));
  }

  lemma TakenAgrees(m: Meaning, body: seq<Instr>, k: nat, a: seq<int>, b: seq<int>)
    requires RespectsAll(m, body) && k < |body| && Agree(a, b, Reads(body[k]))
    ensures m.taken(k, a) == m.taken(k, b)
  {
    assert Respects(m, body[k], k);
  }

  lemma BranchWritesNothing(body: seq<Instr>, k: nat)
    requires k < |body| && body[k].op.Branch?
    ensures Written(body, k + 1) == Written(body, k)
  {
  }

  lemma {:induction false} Lockstep(m: Meaning, body: seq<Instr>, k: nat, a: seq<int>, b: seq<int>)
    requires RespectsAll(m, body) && k < |body| && Settled(a, b, Written(body, k), Written(body, |body|))
    requires Written(body, |body|) * ReadFirst(body, |body|) == {}
    requires body[|body| - 1].op.Branch? && Pass(m, body, k, a).Back?
    ensures Pass(m, body, k, b) == Pass(m, body, k, a)
    decreases |body| - k
  {
    StepAgrees(m, body, k, a, b);
    TakenAgrees(m, body, k, a, b);
    if body[k].op.Branch? {
      BranchWritesNothing(body, k);
    }
    if k == |body| - 1 {
      assert a == b;
    } else if body[k].op.Branch? {
      Lockstep(m, body, k + 1, a, b);
    } else {
      Lockstep(m, body, k + 1, m.exec(k, a), m.exec(k, b));
    }
  }

  /** An accepted polling loop that took its back edge once is at a fixed point: the next pass
      takes it again with the same registers and flags. */
  lemma FixedPoint(m: Meaning, body: seq<Instr>, head: nat, regs: seq<int>)
    requires Accepted(body, head) && Plain(body, head) && RespectsAll(m, body) && |regs| == REGS
    requires Pass(m, body, 0, regs).Back?
    ensures Pass(m, body, 0, Pass(m, body, 0, regs).regs) == Pass(m, body, 0, regs)
  {
    var next := Pass(m, body, 0, regs).regs;
    PassLength(m, body, 0, regs);
    forall r: nat | r < REGS && r !in Written(body, |body|)
      ensures regs[r] == next[r]
    {
      PassFrame(m, body, 0, regs, r);
    }
    Lockstep(m, body, 0, regs, next);
  }

  lemma {:induction false} PassLength(m: Meaning, body: seq<Instr>, k: nat, regs: seq<int>)
    requires RespectsAll(m, body) && k < |body| && |regs| == REGS
    ensures |Pass(m, body, k, regs).regs| == REGS
    decreases |body| - k
  {
    if k < |body| - 1 {
      assert Respects(m, body[k], k);
      PassLength(m, body, k + 1, if body[k].op.Branch? then regs else m.exec(k, regs));
    }
  }

  /** Skipping passes is sound: while memory stays as it is, any number of further passes leaves
      the registers and flags the first one left. */
  lemma {:induction false} SkipsAnyNumber(m: Meaning, body: seq<Instr>, head: nat, regs: seq<int>, n: nat)
    requires Accepted(body, head) && Plain(body, head) && RespectsAll(m, body) && |regs| == REGS
    requires Pass(m, body, 0, regs).Back?
    ensures Passes(m, body, n + 1, regs) == Pass(m, body, 0, regs)
  {
    if n == 0 {
      assert Passes(m, body, 0, regs) == Back(regs);
    } else {
      SkipsAnyNumber(m, body, head, regs, n - 1);
      FixedPoint(m, body, head, regs);
    }
  }
}
