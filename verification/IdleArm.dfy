/** The instructions a polling loop may hold, as the ARM executes them: which registers each reads and
    writes, against what the scan of src/core/cpu/idle_loop.cpp records. */
module IdleArm {
  import opened IdleLoop
  import opened IdleCheck

  /** What the processor computes, whatever it is: the value and the flags of a data operation on
      its operands and the carry, a shifted operand and an immediate one by position, a product, the
      leading zeros, whether a condition holds of the flags, and the word memory holds. */
  datatype Arm = Arm(value: (nat, int, int, int) -> int, flags: (nat, int, int, int) -> int,
                     shifted: (nat, int, int) -> int, imm: nat -> int,
                     product: (int, int, int) -> int, productFlags: (int, int, int) -> int, zeros: int -> int,
                     holds: (nat, int) -> bool, word: nat -> int)

  /** The address a load at `at` reads. */
  function Polled(i: Instr, at: nat, r: seq<int>): nat
    requires i.op.LdrStr? && |r| == REGS
  {
    (if i.op.rn == 15 then at + 8 + i.op.offset else r[i.op.rn] + i.op.offset) % 0x1_0000_0000
  }

  /** A data operation. MOV and MVN take no first operand, ADC, SBC and RSC the carry as well; TST,
      TEQ, CMP and CMN set the flags and nothing else. */
  function DataOp(c: Arm, op: Op, k: nat, r: seq<int>): (r': seq<int>)
    requires op.Dp? && op.Ok() && |r| == REGS
    ensures |r'| == REGS
  {
    var a := if op.opcode == 13 || op.opcode == 15 then 0 else r[op.rn];
    var b := match op.shift
      case Imm => c.imm(k)
      case ImmShift => c.shifted(k, r[op.rm], 0)
      case RegShift => c.shifted(k, r[op.rm], r[op.rs]);
    var carry := if op.opcode == 5 || op.opcode == 6 || op.opcode == 7 then r[16] else 0;
    var v, f := c.value(op.opcode, a, b, carry), c.flags(op.opcode, a, b, carry);
    if op.opcode == 8 || op.opcode == 9 || op.opcode == 10 || op.opcode == 11 then r[16 := f]
    else if op.s then r[op.rd := v][16 := f] else r[op.rd := v]
  }

  /** The registers and flags (at 16) after instruction i at position k, address at. A load or a store
      that is not pre-indexed, or writes back, moves its base. */
  function Executed(c: Arm, i: Instr, k: nat, at: nat, r: seq<int>): seq<int>
    requires |r| == REGS
  {
    match i.op
    case Dp(_, _, _, _, _, _, _) => DataOp(c, i.op, k, r)
    case Clz(rd, rm) => r[rd := c.zeros(r[rm])]
    case Mul(acc, s, rd, ra, rm, rs) =>
      var sum := if acc then r[ra] else 0;
      var p := r[rd := c.product(r[rm], r[rs], sum)];
      if s then p[16 := c.productFlags(r[rm], r[rs], sum)] else p
    case LdrStr(load, pre, writeback, rd, rn, offset) =>
      var from := if pre then Polled(i, at, r) else r[rn] % 0x1_0000_0000;
      var moved := if !pre || writeback then r[rn := (r[rn] + offset) % 0x1_0000_0000] else r;
      if load then moved[rd := c.word(from)] else moved
    case _ => r
  }

  /** A loop body as the processor runs it. */
  function Running(c: Arm, body: seq<Instr>, head: nat): Meaning
  {
    Meaning((k: nat, r: seq<int>) => if k < |body| && |r| == REGS then Executed(c, body[k], k, head + 4 * k, r) else r,
            (k: nat, r: seq<int>) =>
              k < |body| && |r| == REGS && (body[k].cond == ALWAYS || c.holds(body[k].cond, r[16])))
  }

  /** What the theorem takes: no status register read, and no predicate but on branches. */
  predicate Executable(i: Instr) { !i.op.Mrs? && (i.cond != ALWAYS ==> i.op.Branch?) }

  // ---- the recorded sets are right ------------------------------------------------------------

  /** What the scan lets into a body neither stores nor, but for branches, changes the program counter. */
  lemma AllowedIsStill(c: Arm, i: Instr, k: nat, at: nat, head: nat, tail: nat, a: seq<int>)
    requires Allowed(i, at, head, tail) && |a| == REGS
    ensures !i.op.Other? && (i.op.LdrStr? ==> i.op.load) && i.cond < 15 && Executed(c, i, k, at, a)[15] == a[15]
  {
  }

  lemma WritesFrame(c: Arm, i: Instr, k: nat, at: nat, head: nat, tail: nat, a: seq<int>, r: nat)
    requires Allowed(i, at, head, tail) && |a| == REGS && r < REGS && r !in Writes(i)
    ensures |Executed(c, i, k, at, a)| == REGS && Executed(c, i, k, at, a)[r] == a[r]
  {
  }

  lemma ReadsEnough(c: Arm, i: Instr, k: nat, at: nat, head: nat, tail: nat, a: seq<int>, b: seq<int>)
    requires Allowed(i, at, head, tail) && Executable(i) && Agree(a, b, Reads(i))
    ensures Agree(Executed(c, i, k, at, a), Executed(c, i, k, at, b), Writes(i))
  {
    match i.op
    case Dp(shift, opcode, _, _, rn, rm, rs) =>
      assert !Moves(opcode) ==> rn in Reads(i);
      assert shift != Imm ==> rm in Reads(i);
      assert shift == RegShift ==> rs in Reads(i);
      assert UsesCarry(opcode) ==> FLAGS in Reads(i);
    case Clz(_, rm) => assert rm in Reads(i);
    case Mul(acc, _, _, ra, rm, rs) => assert rm in Reads(i) && rs in Reads(i) && (acc ==> ra in Reads(i));
    case LdrStr(_, _, _, _, rn, _) => assert rn != PC ==> rn in Reads(i);
    case _ =>
  }

  /** Whatever the processor computes, each instruction of a body let in changes only what the scan records as
      written, and what it leaves there depends only on what the scan records as read. */
  lemma RunningRespects(c: Arm, body: seq<Instr>, head: nat)
    requires AllAllowed(body, head, |body|) && forall i | i in body :: Executable(i)
    ensures RespectsAll(Running(c, body, head), body)
  {
    var m := Running(c, body, head);
    forall k | 0 <= k < |body| ensures Respects(m, body[k], k) {
      var i, at, tail := body[k], head + 4 * k, head + 4 * (|body| - 1);
      assert i in body;
      forall a: seq<int> | |a| == REGS ensures |m.exec(k, a)| == REGS {
        assert m.exec(k, a) == Executed(c, i, k, at, a);
      }
      forall a: seq<int>, r: nat | |a| == REGS && r < REGS && r !in Writes(i) ensures m.exec(k, a)[r] == a[r] {
        WritesFrame(c, i, k, at, head, tail, a, r);
      }
      forall a: seq<int>, b: seq<int> | Agree(a, b, Reads(i)) ensures Agree(m.exec(k, a), m.exec(k, b), Writes(i)) {
        ReadsEnough(c, i, k, at, head, tail, a, b);
      }
      forall a: seq<int>, b: seq<int> | Agree(a, b, Reads(i)) ensures m.taken(k, a) == m.taken(k, b) {
        assert i.cond != ALWAYS ==> FLAGS in Reads(i);
      }
    }
  }

  // ---- ... and no larger than they need be ----------------------------------------------------

  /** A processor that adds up everything an instruction reads. */
  function Summing(): Arm
  {
    Arm((_, a: int, b: int, c: int) => a + b + c, (_, a: int, b: int, c: int) => a + b + c,
        (_, m: int, s: int) => m + s, _ => 0, (m: int, s: int, a: int) => m + s + a,
        (m: int, s: int, a: int) => m + s + a, (x: int) => x, (_, f: int) => f == 0, (at: nat) => at)
  }

  lemma Wraps(x: int)
    ensures x % 0x1_0000_0000 != (x + 1) % 0x1_0000_0000
  {
  }

  /** Every register the scan records as read can make a difference to what it records as written. */
  lemma ReadsNeeded(i: Instr, k: nat, at: nat, r: nat) returns (a: seq<int>, b: seq<int>)
    requires i.cond == ALWAYS && r in Reads(i) && (i.op.LdrStr? ==> i.op.load && i.op.pre)
    ensures |a| == |b| == REGS && forall x | 0 <= x < REGS && x != r :: a[x] == b[x]
    ensures !Agree(Executed(Summing(), i, k, at, a), Executed(Summing(), i, k, at, b), Writes(i))
  {
    a := seq(REGS, _ => 0);
    b := a[r := 1];
    match i.op
    case Dp(_, _, _, _, _, _, _) => DataReads(i, k, at, r, a, b);
    case Clz(rd, _) => assert rd in Writes(i);
    case Mul(_, _, rd, _, _, _) => assert rd in Writes(i);
    case LdrStr(_, _, _, rd, rn, offset) =>
      Wraps(offset);
      assert rd in Writes(i);
    case _ =>
  }

  lemma DataReads(i: Instr, k: nat, at: nat, r: nat, a: seq<int>, b: seq<int>)
    requires i.cond == ALWAYS && i.op.Dp? && r in Reads(i)
    requires a == seq(REGS, _ => 0) && b == a[r := 1]
    ensures !Agree(Executed(Summing(), i, k, at, a), Executed(Summing(), i, k, at, b), Writes(i))
  {
    if Compares(i.op.opcode) {
      assert FLAGS in Writes(i);
    } else {
      assert i.op.rd in Writes(i);
    }
  }

  /** A polling loop on the processor: once round, any number of further passes leaves the registers
      and flags as they are. */
  lemma LoopRepeats(c: Arm, body: seq<Instr>, head: nat, regs: seq<int>, n: nat)
    requires Accepted(body, head) && Plain(body, head) && (forall i | i in body :: Executable(i)) && |regs| == REGS
    requires Pass(Running(c, body, head), body, 0, regs).Back?
    ensures Round(Running(c, body, head), body, regs)
    ensures Passes(Running(c, body, head), body, n + 1, regs) == Pass(Running(c, body, head), body, 0, regs)
  {
    RunningRespects(c, body, head);
    SkipsAnyNumber(Running(c, body, head), body, head, regs, n);
  }
}
