/** The write journal of a 2D engine (src/core/gpu/engine2d_regs.cpp, gpu.h): lines drawn late,
    in batches, from the state an engine that never waited would have drawn them from. */
module LazyJournal {
  import opened Basics

  /** What one engine does, whatever its registers are. `S` is the render state, `W` a journaled
      write (a register, palette or OAM write, or a latch of a line outside the display). */
  datatype Engine<!S, !W> = Engine(
    apply: (S, W) -> S,
    windows: (S, nat) -> S,     // update_windows, at a display line's start
    preDraw: (S, nat) -> S,     // latches before drawing the line
    carry: S -> S,              // begin_line: what drawing carries to the next line
    postDraw: S -> S)           // latches after it

  datatype Entry<W> = Entry(stamp: nat, w: W)

  /** The render side: its state and the state each line so far was drawn from. */
  datatype Side<S> = Side(s: S, drawn: seq<S>)

  // ---- the engine that never waits ---------------------------------------------

  datatype Now<S> = Now(line: nat, hblankDone: bool, side: Side<S>)

  function DrawLine<S, W>(en: Engine<S, W>, x: Side<S>, line: nat): Side<S> {
    var p := en.preDraw(x.s, line);
    Side(en.postDraw(en.carry(p)), x.drawn + [p])
  }

  function NowWrite<S, W>(en: Engine<S, W>, n: Now<S>, w: W): Now<S> {
    n.(side := n.side.(s := en.apply(n.side.s, w)))
  }

  function NowScan<S, W>(en: Engine<S, W>, n: Now<S>): Now<S> {
    Now(n.line + 1, false,
        if n.line + 1 < SCREEN_H then n.side.(s := en.windows(n.side.s, n.line + 1)) else n.side)
  }

  function NowHBlank<S, W>(en: Engine<S, W>, n: Now<S>): Now<S> {
    Now(n.line, true, if n.line < SCREEN_H then DrawLine(en, n.side, n.line) else n.side)
  }

  // ---- the journaling engine ----------------------------------------------------

  /** `pending` is the journal from the replay position on; `next` the first line not yet drawn. */
  datatype Lazy<S, W> = Lazy(line: nat, hblankDone: bool, side: Side<S>, pending: seq<Entry<W>>,
                             next: nat, inflight: bool)
  {
    /** First line a write now can still affect. */
    function Frontier(): nat { if hblankDone then line + 1 else line }
  }

  const NO_STAMP := 0xFFFF

  /** `journal_stamp`. */
  function Stamp<S, W>(z: Lazy<S, W>): nat {
    var l := z.Frontier();
    if l < SCREEN_H || z.inflight then l * 2 + (if z.hblankDone then 0 else 1) else NO_STAMP
  }

  /** `replay_to`: apply pending entries up to a stamp. */
  function Replay<S, W>(en: Engine<S, W>, s: S, j: seq<Entry<W>>, stamp: nat): S
    decreases |j|
  {
    if |j| == 0 || j[0].stamp > stamp then s else Replay(en, en.apply(s, j[0].w), j[1..], stamp)
  }

  /** ... and what it leaves pending. */
  function Rest<W>(j: seq<Entry<W>>, stamp: nat): (r: seq<Entry<W>>)
    ensures |r| <= |j|
    decreases |j|
  {
    if |j| == 0 || j[0].stamp > stamp then j else Rest(j[1..], stamp)
  }

  /** A render side with its pending journal. */
  datatype Pair<S, W> = Pair(x: Side<S>, j: seq<Entry<W>>)

  function ReplayPair<S, W>(en: Engine<S, W>, p: Pair<S, W>, stamp: nat): Pair<S, W> {
    Pair(p.x.(s := Replay(en, p.x.s, p.j, stamp)), Rest(p.j, stamp))
  }

  /** A display line's start, in display order: writes before it, then the window edges. */
  function StartLine<S, W>(en: Engine<S, W>, p: Pair<S, W>, line: nat): Pair<S, W> {
    var a := ReplayPair(en, p, line * 2);
    var b := a.(x := a.x.(s := en.windows(a.x.s, line)));
    ReplayPair(en, b, line * 2 + 1)
  }

  /** `step_engine`: one display line. */
  function StepEngine<S, W>(en: Engine<S, W>, p: Pair<S, W>, line: nat): Pair<S, W> {
    var a := StartLine(en, p, line);
    Pair(DrawLine(en, a.x, line), a.j)
  }

  /** Lines first .. last - 1 in turn. */
  function StepLines<S, W>(en: Engine<S, W>, p: Pair<S, W>, first: nat, last: nat): Pair<S, W>
    decreases last - first
  {
    if first >= last then p else StepLines(en, StepEngine(en, p, first), first + 1, last)
  }

  function PairOf<S, W>(z: Lazy<S, W>): Pair<S, W> { Pair(z.side, z.pending) }

  function WithPair<S, W>(z: Lazy<S, W>, p: Pair<S, W>, next: nat): Lazy<S, W> {
    z.(side := p.x, pending := p.j, next := next)
  }

  // Steps. Drawing is a step of its own: the code draws at a line's HBlank, at a catch-up, at
  // the end of the frame, or on a worker thread while the guest runs on.

  datatype Step<W> = Write(w: W) | Scan | HBlank(hand: bool) | Draw | Join

  predicate Enabled<S, W>(z: Lazy<S, W>, t: Step<W>) {
    match t
    case Write(_) => true
    case Scan => z.hblankDone && z.line + 1 < LINES
    case HBlank(_) => !z.hblankDone
    case Draw => z.next < Min(SCREEN_H, z.Frontier())
    case Join => z.inflight
  }

  /** One step. The last display line's HBlank draws everything left, or hands it to the worker;
      a join finishes the worker's lines, then applies what the guest has written since. */
  function LazyStep<S, W>(en: Engine<S, W>, z: Lazy<S, W>, t: Step<W>): Lazy<S, W>
    requires Enabled(z, t)
  {
    match t
    case Write(w) =>
      if Stamp(z) == NO_STAMP then z.(side := z.side.(s := en.apply(z.side.s, w)))
      else z.(pending := z.pending + [Entry(Stamp(z), w)])
    case Scan => z.(line := z.line + 1, hblankDone := false)
    case HBlank(hand) =>
      var y := z.(hblankDone := true);
      if z.line != SCREEN_H - 1 then y
      else if hand then y.(inflight := true)
      else WithPair(y, StepLines(en, PairOf(z), z.next, SCREEN_H), SCREEN_H)
    case Draw => WithPair(z, StepEngine(en, PairOf(z), z.next), z.next + 1)
    case Join =>
      var p := StepLines(en, PairOf(z), z.next, SCREEN_H);
      WithPair(z, ReplayPair(en, p, NO_STAMP), SCREEN_H).(inflight := false)
  }

  function NowStep<S, W>(en: Engine<S, W>, n: Now<S>, t: Step<W>): Now<S> {
    match t
    case Write(w) => NowWrite(en, n, w)
    case Scan => NowScan(en, n)
    case HBlank(_) => NowHBlank(en, n)
    case Draw => n
    case Join => n
  }

  // ---- what the journaling engine stands for -------------------------------------

  /** Everything due, done: the lines below the frontier, the start of the line under way, and
      the rest of the journal. */
  function Settled<S, W>(en: Engine<S, W>, z: Lazy<S, W>): Side<S> {
    var f := Min(SCREEN_H, z.Frontier());
    var p := StepLines(en, PairOf(z), z.next, f);
    var q := if !z.hblankDone && z.line < SCREEN_H then StartLine(en, p, z.line) else p;
    ReplayPair(en, q, NO_STAMP).x
  }

  ghost predicate Nondecreasing<W>(j: seq<Entry<W>>) {
    forall x, y | 0 <= x < y < |j| :: j[x].stamp <= j[y].stamp
  }

  ghost predicate Below<W>(j: seq<Entry<W>>, bound: nat) {
    forall x | 0 <= x < |j| :: j[x].stamp <= bound
  }

  /** The stamp of a write journaled now. */
  function Newest<S, W>(z: Lazy<S, W>): nat { z.Frontier() * 2 + (if z.hblankDone then 0 else 1) }

  ghost predicate Inv<S, W>(z: Lazy<S, W>) {
    && z.line < LINES && z.next <= Min(SCREEN_H, z.Frontier())
    && Nondecreasing(z.pending)
    && Below(z.pending, Newest(z))
    && (z.Frontier() >= SCREEN_H && !z.inflight ==> z.next == SCREEN_H && z.pending == [])
    && (z.inflight ==> z.Frontier() >= SCREEN_H)
  }

  /** The journaling engine `z` stands for the engine `n` that never waits. */
  ghost predicate Matches<S, W>(en: Engine<S, W>, z: Lazy<S, W>, n: Now<S>) {
    Inv(z) && n.line == z.line && n.hblankDone == z.hblankDone && n.side == Settled(en, z)
  }

  // ---- the journal under replay ----------------------------------------------------

  lemma {:induction false} RestBelow<W>(j: seq<Entry<W>>, stamp: nat, bound: nat)
    requires Below(j, bound)
    ensures Below(Rest(j, stamp), bound)
    ensures bound <= stamp ==> Rest(j, stamp) == []
    decreases |j|
  {
    if |j| > 0 && j[0].stamp <= stamp { RestBelow(j[1..], stamp, bound); }
  }

  lemma {:induction false} RestNondecreasing<W>(j: seq<Entry<W>>, stamp: nat)
    requires Nondecreasing(j)
    ensures Nondecreasing(Rest(j, stamp))
    decreases |j|
  {
    if |j| > 0 && j[0].stamp <= stamp { RestNondecreasing(j[1..], stamp); }
  }

  /** A write journaled late enough is not reached. */
  lemma {:induction false} ReplayBefore<S, W>(en: Engine<S, W>, s: S, j: seq<Entry<W>>, e: Entry<W>, stamp: nat)
    requires e.stamp > stamp
    ensures Replay(en, s, j + [e], stamp) == Replay(en, s, j, stamp)
    ensures Rest(j + [e], stamp) == Rest(j, stamp) + [e]
    decreases |j|
  {
    if |j| > 0 && j[0].stamp <= stamp {
      assert (j + [e])[1..] == j[1..] + [e];
      ReplayBefore(en, en.apply(s, j[0].w), j[1..], e, stamp);
    }
  }

  /** A write behind an exhausted journal is applied last. */
  lemma {:induction false} ReplayThrough<S, W>(en: Engine<S, W>, s: S, j: seq<Entry<W>>, e: Entry<W>, stamp: nat)
    requires e.stamp <= stamp && Rest(j, stamp) == []
    ensures Replay(en, s, j + [e], stamp) == en.apply(Replay(en, s, j, stamp), e.w)
    ensures Rest(j + [e], stamp) == []
    decreases |j|
  {
    if |j| > 0 {
      assert (j + [e])[1..] == j[1..] + [e];
      ReplayThrough(en, en.apply(s, j[0].w), j[1..], e, stamp);
    }
  }

  function Later<S, W>(p: Pair<S, W>, e: Entry<W>): Pair<S, W> { p.(j := p.j + [e]) }

  lemma StartLineBefore<S, W>(en: Engine<S, W>, p: Pair<S, W>, e: Entry<W>, line: nat)
    requires e.stamp > line * 2 + 1
    ensures StartLine(en, Later(p, e), line) == Later(StartLine(en, p, line), e)
  {
    ReplayBefore(en, p.x.s, p.j, e, line * 2);
    var a := ReplayPair(en, p, line * 2);
    ReplayBefore(en, en.windows(a.x.s, line), a.j, e, line * 2 + 1);
  }

  lemma {:induction false} StepLinesBefore<S, W>(en: Engine<S, W>, p: Pair<S, W>, e: Entry<W>, first: nat, last: nat)
    requires e.stamp >= last * 2
    ensures StepLines(en, Later(p, e), first, last) == Later(StepLines(en, p, first, last), e)
    decreases last - first
  {
    if first < last {
      StartLineBefore(en, p, e, first);
      StepLinesBefore(en, StepEngine(en, p, first), e, first + 1, last);
    }
  }

  lemma {:induction false} StepLinesLast<S, W>(en: Engine<S, W>, p: Pair<S, W>, first: nat, last: nat)
    requires first <= last
    ensures StepLines(en, p, first, last + 1) == StepEngine(en, StepLines(en, p, first, last), last)
    decreases last - first
  {
    if first < last { StepLinesLast(en, StepEngine(en, p, first), first + 1, last); }
  }

  lemma StartLineBelow<S, W>(en: Engine<S, W>, p: Pair<S, W>, line: nat, bound: nat)
    requires Below(p.j, bound)
    ensures Below(StartLine(en, p, line).j, bound)
    ensures bound <= line * 2 + 1 ==> StartLine(en, p, line).j == []
  {
    RestBelow(p.j, line * 2, bound);
    RestBelow(Rest(p.j, line * 2), line * 2 + 1, bound);
  }

  lemma {:induction false} StepLinesBelow<S, W>(en: Engine<S, W>, p: Pair<S, W>, first: nat, last: nat, bound: nat)
    requires Below(p.j, bound)
    ensures Below(StepLines(en, p, first, last).j, bound)
    ensures first < last && bound <= last * 2 - 1 ==> StepLines(en, p, first, last).j == []
    decreases last - first
  {
    if first < last {
      StartLineBelow(en, p, first, bound);
      StepLinesBelow(en, StepEngine(en, p, first), first + 1, last, bound);
    }
  }

  lemma StartLineNondecreasing<S, W>(en: Engine<S, W>, p: Pair<S, W>, line: nat)
    requires Nondecreasing(p.j)
    ensures Nondecreasing(StartLine(en, p, line).j)
  {
    RestNondecreasing(p.j, line * 2);
    RestNondecreasing(Rest(p.j, line * 2), line * 2 + 1);
  }

  // ---- each step keeps the correspondence --------------------------------------------

  lemma WriteMatches<S, W>(en: Engine<S, W>, z: Lazy<S, W>, n: Now<S>, w: W)
    requires Matches(en, z, n)
    ensures Matches(en, LazyStep(en, z, Write(w)), NowWrite(en, n, w))
  {
    if Stamp(z) != NO_STAMP {
      JournaledWrite(en, z, Entry(Stamp(z), w));
    }
  }

  /** A journaled write is the last thing the settled engine sees. */
  lemma JournaledWrite<S, W>(en: Engine<S, W>, z: Lazy<S, W>, e: Entry<W>)
    requires Inv(z) && Stamp(z) != NO_STAMP && e.stamp == Stamp(z)
    ensures Settled(en, z.(pending := z.pending + [e])) == Settled(en, z).(s := en.apply(Settled(en, z).s, e.w))
  {
    var f := Min(SCREEN_H, z.Frontier());
    var p := StepLines(en, PairOf(z), z.next, f);
    assert PairOf(z.(pending := z.pending + [e])) == Later(PairOf(z), e);
    StepLinesBefore(en, PairOf(z), e, z.next, f);
    StepLinesBelow(en, PairOf(z), z.next, f, Newest(z));
    if !z.hblankDone && z.line < SCREEN_H {
      StartLineWrite(en, p, e, z.line);
    } else {
      RestBelow(p.j, NO_STAMP, Newest(z));
      ReplayThrough(en, p.x.s, p.j, e, NO_STAMP);
    }
  }

  /** A write during a display line lands after that line's window edges. */
  lemma StartLineWrite<S, W>(en: Engine<S, W>, p: Pair<S, W>, e: Entry<W>, line: nat)
    requires Below(p.j, line * 2 + 1) && e.stamp == line * 2 + 1
    ensures StartLine(en, p, line).j == [] && StartLine(en, Later(p, e), line).j == []
    ensures var x := StartLine(en, p, line).x;
            StartLine(en, Later(p, e), line).x == x.(s := en.apply(x.s, e.w))
  {
    StartLineBelow(en, p, line, line * 2 + 1);
    ReplayBefore(en, p.x.s, p.j, e, line * 2);
    var a := ReplayPair(en, p, line * 2);
    ReplayThrough(en, en.windows(a.x.s, line), a.j, e, line * 2 + 1);
  }

  lemma ScanMatches<S, W>(en: Engine<S, W>, z: Lazy<S, W>, n: Now<S>)
    requires Matches(en, z, n) && Enabled(z, Scan)
    ensures Matches(en, LazyStep(en, z, Scan), NowScan(en, n))
  {
    var f := Min(SCREEN_H, z.Frontier());
    var p := StepLines(en, PairOf(z), z.next, f);
    StepLinesBelow(en, PairOf(z), z.next, f, Newest(z));
    if z.line + 1 < SCREEN_H {
      AllDue(en, p.x.s, p.j, (z.line + 1) * 2);
    }
  }

  /** Replaying to any stamp at or past the newest entry replays everything. */
  lemma {:induction false} AllDue<S, W>(en: Engine<S, W>, s: S, j: seq<Entry<W>>, stamp: nat)
    requires Below(j, stamp) && stamp <= NO_STAMP
    ensures Replay(en, s, j, stamp) == Replay(en, s, j, NO_STAMP)
    ensures Rest(j, stamp) == [] && Rest(j, NO_STAMP) == []
    decreases |j|
  {
    if |j| > 0 { AllDue(en, en.apply(s, j[0].w), j[1..], stamp); }
  }

  lemma HBlankMatches<S, W>(en: Engine<S, W>, z: Lazy<S, W>, n: Now<S>, hand: bool)
    requires Matches(en, z, n) && Enabled(z, Step<W>.HBlank(hand))
    ensures Matches(en, LazyStep(en, z, HBlank(hand)), NowHBlank(en, n))
  {
    if z.line < SCREEN_H {
      var p := StepLines(en, PairOf(z), z.next, z.line);
      StepLinesLast(en, PairOf(z), z.next, z.line);
      StepLinesBelow(en, PairOf(z), z.next, z.line, Newest(z));
      StartLineBelow(en, p, z.line, Newest(z));
    }
  }

  lemma DrawMatches<S, W>(en: Engine<S, W>, z: Lazy<S, W>, n: Now<S>)
    requires Matches(en, z, n) && Enabled(z, Step<W>.Draw)
    ensures Matches(en, LazyStep(en, z, Draw), n)
  {
    StartLineBelow(en, PairOf(z), z.next, Newest(z));
    StartLineNondecreasing(en, PairOf(z), z.next);
  }

  lemma JoinMatches<S, W>(en: Engine<S, W>, z: Lazy<S, W>, n: Now<S>)
    requires Matches(en, z, n) && z.inflight
    ensures Matches(en, LazyStep(en, z, Join), n)
  {
    var p := StepLines(en, PairOf(z), z.next, SCREEN_H);
    StepLinesBelow(en, PairOf(z), z.next, SCREEN_H, Newest(z));
    RestBelow(p.j, NO_STAMP, Newest(z));
  }

  lemma StepMatches<S, W>(en: Engine<S, W>, z: Lazy<S, W>, n: Now<S>, t: Step<W>)
    requires Matches(en, z, n) && Enabled(z, t)
    ensures Matches(en, LazyStep(en, z, t), NowStep(en, n, t))
  {
    match t
    case Write(w) => WriteMatches(en, z, n, w);
    case Scan => ScanMatches(en, z, n);
    case HBlank(hand) => HBlankMatches(en, z, n, hand);
    case Draw => DrawMatches(en, z, n);
    case Join => JoinMatches(en, z, n);
  }

  // ---- whole frames -----------------------------------------------------------------

  predicate Runnable<S, W>(en: Engine<S, W>, z: Lazy<S, W>, trace: seq<Step<W>>)
    decreases |trace|
  {
    |trace| == 0 || (Enabled(z, trace[0]) && Runnable(en, LazyStep(en, z, trace[0]), trace[1..]))
  }

  function LazyRun<S, W>(en: Engine<S, W>, z: Lazy<S, W>, trace: seq<Step<W>>): Lazy<S, W>
    requires Runnable(en, z, trace)
    decreases |trace|
  {
    if |trace| == 0 then z else LazyRun(en, LazyStep(en, z, trace[0]), trace[1..])
  }

  function NowRun<S, W>(en: Engine<S, W>, n: Now<S>, trace: seq<Step<W>>): Now<S>
    decreases |trace|
  {
    if |trace| == 0 then n else NowRun(en, NowStep(en, n, trace[0]), trace[1..])
  }

  lemma {:induction false} RunMatches<S, W>(en: Engine<S, W>, z: Lazy<S, W>, n: Now<S>, trace: seq<Step<W>>)
    requires Matches(en, z, n) && Runnable(en, z, trace)
    ensures Matches(en, LazyRun(en, z, trace), NowRun(en, n, trace))
    decreases |trace|
  {
    if |trace| > 0 {
      StepMatches(en, z, n, trace[0]);
      RunMatches(en, LazyStep(en, z, trace[0]), NowStep(en, n, trace[0]), trace[1..]);
    }
  }

  /** A frame begins at the start of line 0 with nothing journaled. */
  function FrameStart<S, W>(s: S): Lazy<S, W> { Lazy(0, false, Side(s, []), [], 0, false) }

  function NowStart<S, W>(en: Engine<S, W>, s: S): Now<S> { Now(0, false, Side(en.windows(s, 0), [])) }

  /** The engine that never waits draws a line at each display HBlank. */
  lemma {:induction false} NowDraws<S, W>(en: Engine<S, W>, n: Now<S>, z: Lazy<S, W>, trace: seq<Step<W>>)
    requires Runnable(en, z, trace) && n.line == z.line && n.hblankDone == z.hblankDone && z.line < LINES
    requires |n.side.drawn| == Min(SCREEN_H, z.Frontier())
    ensures |NowRun(en, n, trace).side.drawn| == Min(SCREEN_H, LazyRun(en, z, trace).Frontier())
    decreases |trace|
  {
    if |trace| > 0 {
      NowDraws(en, NowStep(en, n, trace[0]), LazyStep(en, z, trace[0]), trace[1..]);
    }
  }

  /** In every frame, whatever is written when and however late the lines are drawn, once the
      lines are drawn and nothing is in flight the journal is empty, every line was drawn from
      the state it would have had at its HBlank, and the state is the one at this moment. */
  lemma BatchedDrawingIsExact<S, W>(en: Engine<S, W>, s: S, trace: seq<Step<W>>)
    requires Runnable(en, FrameStart(s), trace)
    requires var z := LazyRun(en, FrameStart(s), trace); z.Frontier() >= SCREEN_H && !z.inflight
    ensures var z := LazyRun(en, FrameStart(s), trace);
            z.pending == [] && z.next == SCREEN_H == |z.side.drawn| &&
            z.side == NowRun(en, NowStart<S, W>(en, s), trace).side
  {
    var z0: Lazy<S, W> := FrameStart(s);
    assert Matches(en, z0, NowStart<S, W>(en, s));
    RunMatches(en, z0, NowStart<S, W>(en, s), trace);
    NowDraws(en, NowStart<S, W>(en, s), z0, trace);
  }
}
