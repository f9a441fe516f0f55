/** The scan itself (src/core/cpu/idle_loop.cpp): the bit masks it builds up over a candidate body,
    and the search for the body. */
module IdleScan {
  import opened Basics
  import opened IdleLoop

  class BodyScan {
    var written: set<nat>      // registers and flags the body writes
    var readFirst: set<nat>    // ... and reads before any write in the same pass
    var loads: seq<LoadSite>

    constructor ()
      ensures written == {} && readFirst == {} && loads == []
    {
      written, readFirst, loads := {}, {}, [];
    }

    method DoRead(r: nat)
      modifies this`readFirst
      ensures readFirst == old(readFirst) + ({r} - written)
    {
      if r !in written {
        readFirst := readFirst + {r};
      }
    }

    method DoWrite(r: nat)
      modifies this`written
      ensures written == old(written) + {r}
    {
      written := written + {r};
    }

    /** What `scan_instr` reads of one instruction, in its order. */
    method ReadOperands(i: Instr)
      modifies this`readFirst
      ensures readFirst == old(readFirst) + (Reads(i) - written)
    {
      if i.cond != ALWAYS { DoRead(FLAGS); }
      match i.op {
        case Dp(shift, opcode, _, _, rn, rm, rs) =>
          if !Moves(opcode) { DoRead(rn); }
          if shift != Imm { DoRead(rm); }
          if shift == RegShift { DoRead(rs); }
          if UsesCarry(opcode) { DoRead(FLAGS); }
        case Clz(_, rm) => DoRead(rm);
        case Mul(acc, _, _, ra, rm, rs) =>
          DoRead(rm);
          DoRead(rs);
          if acc { DoRead(ra); }
        case LdrStr(_, _, _, _, rn, _) => if rn != PC { DoRead(rn); }
        case _ =>
      }
    }

    /** ... and writes. */
    method WriteResults(i: Instr)
      modifies this`written
      ensures written == old(written) + Writes(i)
    {
      match i.op {
        case Dp(_, opcode, s, rd, _, _, _) =>
          if Compares(opcode) {
            DoWrite(FLAGS);
          } else {
            DoWrite(rd);
            if s { DoWrite(FLAGS); }
          }
        case Mrs(rd) => DoWrite(rd);
        case Clz(rd, _) => DoWrite(rd);
        case Mul(_, s, rd, _, _, _) =>
          DoWrite(rd);
          if s { DoWrite(FLAGS); }
        case LdrStr(_, _, _, rd, _, _) => DoWrite(rd);
        case _ =>
      }
    }

    /** `scan_instr`: false rejects the loop, with nothing recorded that matters. */
    method ScanInstr(i: Instr, at: nat, head: nat, tail: nat) returns (ok: bool)
      modifies this
      ensures ok == (Allowed(i, at, head, tail) && (i.op.LdrStr? ==> |old(loads)| < MAX_LOADS))
      ensures ok ==> written == old(written) + Writes(i) && readFirst == old(readFirst) + (Reads(i) - old(written))
      ensures ok ==> loads == old(loads) + if i.op.LdrStr? then [Site(i, at)] else []
    {
      if !Allowed(i, at, head, tail) {
        return false;
      }
      if i.op.LdrStr? {
        if |loads| >= MAX_LOADS {
          return false;
        }
        loads := loads + [Site(i, at)];
      }
      ReadOperands(i);
      WriteResults(i);
      return true;
    }
  }

  /** The site of the load at index x: off its base register, or, off the program counter, eight bytes
      past the load. */
  ghost predicate SiteOf(body: seq<Instr>, head: nat, n: nat, site: LoadSite, x: nat)
    requires n <= |body|
  {
    && x < n && body[x].op.LdrStr?
    && site == if body[x].op.rn == 15 then Absolute(head + 4 * x + 8 + body[x].op.offset)
               else Based(body[x].op.rn, body[x].op.offset)
  }

  /** The loads of the first n instructions, in order, `ix` where they are. */
  ghost predicate LoadsAt(body: seq<Instr>, head: nat, n: nat, loads: seq<LoadSite>, ix: seq<nat>)
    requires n <= |body|
  {
    && |ix| == |loads| && Increasing(ix) && (forall j | 0 <= j < |ix| :: SiteOf(body, head, n, loads[j], ix[j]))
    && forall k: nat | k < n && body[k].op.LdrStr? :: k in ix
  }

  lemma OneMoreLoad(body: seq<Instr>, head: nat, n: nat, loads: seq<LoadSite>, ix: seq<nat>, site: LoadSite)
    requires n < |body| && LoadsAt(body, head, n, loads, ix) && SiteOf(body, head, n + 1, site, n)
    ensures LoadsAt(body, head, n + 1, loads + [site], ix + [n])
  {
    forall j | 0 <= j < |ix| ensures SiteOf(body, head, n + 1, loads[j], ix[j]) {
      assert SiteOf(body, head, n, loads[j], ix[j]);
    }
    assert (ix + [n])[|ix|] == n;
    forall k: nat | k < n && body[k].op.LdrStr? ensures k in ix + [n] {
      assert k in ix;
    }
  }

  lemma NoMoreLoad(body: seq<Instr>, head: nat, n: nat, loads: seq<LoadSite>, ix: seq<nat>)
    requires n < |body| && LoadsAt(body, head, n, loads, ix) && !body[n].op.LdrStr?
    ensures LoadsAt(body, head, n + 1, loads, ix)
  {
    forall j | 0 <= j < |ix| ensures SiteOf(body, head, n + 1, loads[j], ix[j]) {
      assert SiteOf(body, head, n, loads[j], ix[j]);
    }
  }

  lemma {:induction false} SitesAreLoads(body: seq<Instr>, head: nat, n: nat) returns (ix: seq<nat>)
    requires n <= |body|
    ensures LoadsAt(body, head, n, Sites(body, head, n), ix)
  {
    ix := [];
    if n > 0 {
      var loads := Sites(body, head, n - 1);
      ix := SitesAreLoads(body, head, n - 1);
      if body[n - 1].op.LdrStr? {
        OneMoreLoad(body, head, n - 1, loads, ix, Site(body[n - 1], head + 4 * (n - 1)));
        ix := ix + [n - 1];
      } else {
        NoMoreLoad(body, head, n - 1, loads, ix);
        assert loads + [] == loads;
      }
    }
  }

  /** A verdict on the loop around an address. */
  datatype Verdict = Rejected | Skippable(head: nat, tail: nat, loads: seq<LoadSite>)

  /** The words from head on, where they can be fetched. */
  ghost predicate Fetched(fetch: nat -> Option<Instr>, head: nat, body: seq<Instr>)
  {
    forall k | 0 <= k < |body| :: fetch(head + 4 * k) == Some(body[k])
  }

  lemma {:induction false} SitesCount(body: seq<Instr>, head: nat, k: nat, n: nat)
    requires k <= n <= |body|
    ensures |Sites(body, head, k)| <= |Sites(body, head, n)|
    decreases n - k
  {
    if k < n {
      SitesCount(body, head, k, n - 1);
    }
  }

  /** What the scan has recorded once it has let the first k instructions in. */
  ghost predicate Scanned(body: seq<Instr>, head: nat, k: nat, written: set<nat>, readFirst: set<nat>,
                          loads: seq<LoadSite>)
    requires k <= |body|
  {
    && AllAllowed(body, head, k) && |loads| <= MAX_LOADS
    && written == Written(body, k) && readFirst == ReadFirst(body, k) && loads == Sites(body, head, k)
  }

  predicate LetIn(body: seq<Instr>, head: nat, k: nat, loads: seq<LoadSite>)
    requires k < |body|
  {
    && Allowed(body[k], head + 4 * k, head, head + 4 * (|body| - 1))
    && (body[k].op.LdrStr? ==> |loads| < MAX_LOADS)
  }

  lemma ScannedNext(body: seq<Instr>, head: nat, k: nat, w: set<nat>, r: set<nat>, loads: seq<LoadSite>)
    requires k < |body| && Scanned(body, head, k, w, r, loads) && LetIn(body, head, k, loads)
    ensures Scanned(body, head, k + 1, w + Writes(body[k]), r + (Reads(body[k]) - w),
                    loads + if body[k].op.LdrStr? then [Site(body[k], head + 4 * k)] else [])
  {
  }

  lemma KeptOut(body: seq<Instr>, head: nat, k: nat, w: set<nat>, r: set<nat>, loads: seq<LoadSite>)
    requires k < |body| && Scanned(body, head, k, w, r, loads) && !LetIn(body, head, k, loads)
    ensures !Accepted(body, head)
  {
    SitesCount(body, head, k + 1, |body|);
  }

  lemma ScannedAll(body: seq<Instr>, head: nat, w: set<nat>, r: set<nat>, loads: seq<LoadSite>)
    requires 0 < |body| <= MAX_BODY && Scanned(body, head, |body|, w, r, loads)
    ensures Accepted(body, head) <==> w * r == {} && |loads| > 0
  {
  }

  /** The scan of a candidate body accepts exactly the bodies in which nothing is carried. */
  method ScanBody(body: seq<Instr>, head: nat) returns (v: Verdict, ghost ix: seq<nat>)
    requires 0 < |body| <= MAX_BODY
    ensures v == if !Accepted(body, head) then Rejected
                 else Skippable(head, head + 4 * (|body| - 1), Sites(body, head, |body|))
    ensures v.Skippable? ==> LoadsAt(body, head, |body|, v.loads, ix)
  {
    ix := SitesAreLoads(body, head, |body|);
    var s := new BodyScan();
    var tail := head + 4 * (|body| - 1);
    var k := 0;
    while k < |body|
      invariant k <= |body| && fresh(s) && Scanned(body, head, k, s.written, s.readFirst, s.loads)
    {
      ghost var w, r, loads := s.written, s.readFirst, s.loads;
      var ok := s.ScanInstr(body[k], head + 4 * k, head, tail);
      if !ok {
        KeptOut(body, head, k, w, r, loads);
        return Rejected, ix;
      }
      ScannedNext(body, head, k, w, r, loads);
      k := k + 1;
    }
    ScannedAll(body, head, s.written, s.readFirst, s.loads);
    if s.written * s.readFirst != {} || |s.loads| == 0 {
      return Rejected, ix;
    }
    return Skippable(head, tail, s.loads), ix;
  }

  /** A branch back to pc or just above it. */
  predicate BackEdge(i: Instr, pc: nat)
  {
    i.op.Branch? && i.op.target <= pc && pc - i.op.target <= MAX_BODY * 4
  }

  /** Word i from pc on is the first back edge, everything up to it fetchable and none of it in the
      unconditional encoding space. */
  ghost predicate FirstBackEdge(fetch: nat -> Option<Instr>, pc: nat, i: nat)
  {
    && i < MAX_SEARCH
    && (forall k | 0 <= k <= i :: Ordinary(fetch, pc + 4 * k))
    && BackEdge(fetch(pc + 4 * i).value, pc)
    && forall k | 0 <= k < i :: !BackEdge(fetch(pc + 4 * k).value, pc)
  }

  ghost predicate Ordinary(fetch: nat -> Option<Instr>, at: nat)
  {
    fetch(at).Some? && fetch(at).value.cond != NEVER
  }

  /** The search for the bottom of the loop. */
  method FindTail(fetch: nat -> Option<Instr>, pc: nat) returns (i: nat, found: bool)
    ensures found ==> FirstBackEdge(fetch, pc, i)
    ensures !found ==> forall j: nat :: !FirstBackEdge(fetch, pc, j)
  {
    i := 0;
    found := false;
    while i < MAX_SEARCH
      invariant i <= MAX_SEARCH
      invariant forall k | 0 <= k < i :: Ordinary(fetch, pc + 4 * k) && !BackEdge(fetch(pc + 4 * k).value, pc)
    {
      var w := fetch(pc + 4 * i);
      if w.None? || w.value.cond == NEVER {
        assert !Ordinary(fetch, pc + 4 * i);
        return;
      }
      if BackEdge(w.value, pc) {
        found := true;
        return;
      }
      i := i + 1;
    }
  }

  method FetchBody(fetch: nat -> Option<Instr>, head: nat, n: nat) returns (ok: bool, words: seq<Instr>)
    ensures ok ==> |words| == n && Fetched(fetch, head, words)
    ensures !ok ==> |words| < n && fetch(head + 4 * |words|).None?
  {
    words := [];
    while |words| < n
      invariant |words| <= n && Fetched(fetch, head, words)
    {
      var w := fetch(head + 4 * |words|);
      if w.None? {
        return false, words;
      }
      words := words + [w.value];
    }
    return true, words;
  }

  /** The loop around pc: from the target of the first back edge down to that edge, if it is short
      enough. */
  ghost predicate LoopAround(fetch: nat -> Option<Instr>, pc: nat, head: nat, body: seq<Instr>)
  {
    exists i: nat :: FirstBackEdge(fetch, pc, i) && Spans(fetch, pc + 4 * i, head, |body|) && Fetched(fetch, head, body)
  }

  /** n words from head on end at the branch to head at tail. */
  ghost predicate Spans(fetch: nat -> Option<Instr>, tail: nat, head: nat, n: nat)
  {
    0 < n <= MAX_BODY && head + 4 * (n - 1) == tail && fetch(tail).Some? && fetch(tail).value.op == Branch(head)
  }

  lemma FirstIsUnique(fetch: nat -> Option<Instr>, pc: nat, i: nat, j: nat)
    requires FirstBackEdge(fetch, pc, i) && FirstBackEdge(fetch, pc, j)
    ensures i == j
  {
  }

  lemma SpanIsUnique(fetch: nat -> Option<Instr>, tail: nat, head: nat, n: nat, head': nat, n': nat)
    requires Spans(fetch, tail, head, n) && Spans(fetch, tail, head', n')
    ensures head == head' && n == n'
  {
  }

  /** Branches reach whole words only. */
  ghost predicate WholeWords(fetch: nat -> Option<Instr>)
  {
    forall a :: fetch(a).Some? && fetch(a).value.op.Branch? ==> fetch(a).value.op.target % 4 == 0
  }

  method FindLoop(fetch: nat -> Option<Instr>, pc: nat) returns (found: bool, head: nat, n: nat, ghost i: nat)
    requires pc % 4 == 0 && WholeWords(fetch)
    ensures found ==> FirstBackEdge(fetch, pc, i) && Spans(fetch, pc + 4 * i, head, n) && head <= pc
    ensures !found ==> forall h: nat, b: seq<Instr> :: !LoopAround(fetch, pc, h, b)
  {
    head, n := 0, 0;
    var k;
    k, found := FindTail(fetch, pc);
    i := k;
    if !found {
      return;
    }
    var tail := pc + 4 * k;
    head := fetch(tail).value.op.target;
    n := (tail - head) / 4 + 1;
    Measured(head, tail);
    found := n <= MAX_BODY;
    if !found {
      forall h: nat, b: seq<Instr> ensures !LoopAround(fetch, pc, h, b) {
        TooLong(fetch, pc, k, head, h, b);
      }
    }
  }

  lemma Measured(head: nat, tail: nat)
    requires head <= tail && head % 4 == 0 && tail % 4 == 0
    ensures tail == head + 4 * ((tail - head) / 4)
  {
  }

  lemma TooLong(fetch: nat -> Option<Instr>, pc: nat, i: nat, head: nat, h: nat, b: seq<Instr>)
    requires FirstBackEdge(fetch, pc, i) && fetch(pc + 4 * i).value.op == Branch(head)
    requires pc + 4 * i - head >= 4 * MAX_BODY
    ensures !LoopAround(fetch, pc, h, b)
  {
    if LoopAround(fetch, pc, h, b) {
      var j: nat :| FirstBackEdge(fetch, pc, j) && Spans(fetch, pc + 4 * j, h, |b|);
      FirstIsUnique(fetch, pc, i, j);
    }
  }

  /** There is one loop around pc at most. */
  lemma LoopIsUnique(fetch: nat -> Option<Instr>, pc: nat, i: nat, head: nat, n: nat, h: nat, b: seq<Instr>)
    requires FirstBackEdge(fetch, pc, i) && Spans(fetch, pc + 4 * i, head, n) && LoopAround(fetch, pc, h, b)
    ensures h == head && |b| == n && Fetched(fetch, head, b)
  {
    var j: nat :| FirstBackEdge(fetch, pc, j) && Spans(fetch, pc + 4 * j, h, |b|) && Fetched(fetch, h, b);
    FirstIsUnique(fetch, pc, i, j);
    SpanIsUnique(fetch, pc + 4 * i, head, n, h, |b|);
  }

  lemma MissingWord(fetch: nat -> Option<Instr>, head: nat, k: nat, b: seq<Instr>)
    requires k < |b| && fetch(head + 4 * k).None?
    ensures !Fetched(fetch, head, b)
  {
    assert fetch(head + 4 * k) != Some(b[k]);
  }

  lemma SameWords(fetch: nat -> Option<Instr>, head: nat, b: seq<Instr>, c: seq<Instr>)
    requires |b| == |c| && Fetched(fetch, head, b) && Fetched(fetch, head, c)
    ensures b == c
  {
    forall k | 0 <= k < |b| ensures b[k] == c[k] {
      assert Some(b[k]) == fetch(head + 4 * k) == Some(c[k]);
    }
  }

  /** `analyse`: skippable exactly when there is a loop around pc whose body the scan accepts, and
      then with that loop's bounds and loads. */
  method Analyse(fetch: nat -> Option<Instr>, pc: nat)
    returns (v: Verdict, ghost body: seq<Instr>, ghost ix: seq<nat>)
    requires pc % 4 == 0 && WholeWords(fetch)
    ensures v.Skippable? ==> LoopAround(fetch, pc, v.head, body) && Accepted(body, v.head)
    ensures v.Skippable? ==>
      && v.head <= pc <= v.tail == v.head + 4 * (|body| - 1)
      && v.loads == Sites(body, v.head, |body|) && LoadsAt(body, v.head, |body|, v.loads, ix)
    ensures v.Rejected? ==> forall h: nat, b: seq<Instr> :: !(LoopAround(fetch, pc, h, b) && Accepted(b, h))
  {
    body, ix := [], [];
    var found, head, n;
    ghost var i;
    found, head, n, i := FindLoop(fetch, pc);
    if !found {
      return Rejected, body, ix;
    }
    var ok, words := FetchBody(fetch, head, n);
    if !ok {
      forall h: nat, b: seq<Instr> ensures !LoopAround(fetch, pc, h, b) {
        if LoopAround(fetch, pc, h, b) {
          LoopIsUnique(fetch, pc, i, head, n, h, b);
          MissingWord(fetch, head, |words|, b);
        }
      }
      return Rejected, body, ix;
    }
    v, ix := ScanBody(words, head);
    body := words;
    forall h: nat, b: seq<Instr> | LoopAround(fetch, pc, h, b) ensures h == head && b == words {
      LoopIsUnique(fetch, pc, i, head, n, h, b);
      SameWords(fetch, head, b, words);
    }
  }
}
