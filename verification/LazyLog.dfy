/** What a line drawn late is drawn from (src/core/gpu/gpu.cpp, `step_engine`): every write and every
    latch before its own, each once, in display order. */
module LazyLog {
  import opened Basics
  import opened LazyJournal

  /** What happens to the render state of an engine, one thing at a time. */
  datatype Mark<W> = Wrote(w: W) | Edges(line: nat) | Latch(line: nat) | Carried | Unlatch

  function Applied<S, W>(en: Engine<S, W>, s: S, m: Mark<W>): S {
    match m
    case Wrote(w) => en.apply(s, w)
    case Edges(line) => en.windows(s, line)
    case Latch(line) => en.preDraw(s, line)
    case Carried => en.carry(s)
    case Unlatch => en.postDraw(s)
  }

  /** The state after a history. */
  function Eval<S, W>(en: Engine<S, W>, s: S, ms: seq<Mark<W>>): S {
    if |ms| == 0 then s else Applied(en, Eval(en, s, ms[..|ms| - 1]), ms[|ms| - 1])
  }

  /** What the guest's steps from some point of a line on do to the display: its writes where they
      come, the window edges as a display line starts, the line's latches around it at its HBlank. */
  function Marks<W>(line: nat, t: Step<W>): seq<Mark<W>> {
    match t
    case Write(w) => [Wrote(w)]
    case Scan => if line + 1 < SCREEN_H then [Edges(line + 1)] else []
    case HBlank(_) => if line < SCREEN_H then [Latch(line), Carried, Unlatch] else []
    case Draw => []
    case Join => []
  }

  function LineAfter<W>(line: nat, t: Step<W>): nat { if t.Scan? then line + 1 else line }

  function History<W>(line: nat, trace: seq<Step<W>>): seq<Mark<W>>
    decreases |trace|
  {
    if |trace| == 0 then [] else Marks(line, trace[0]) + History(LineAfter(line, trace[0]), trace[1..])
  }

  lemma HistoryFrom<W>(ms: seq<Mark<W>>, line: nat, trace: seq<Step<W>>)
    requires |trace| > 0
    ensures ms + Marks(line, trace[0]) + History(LineAfter(line, trace[0]), trace[1..]) == ms + History(line, trace)
  {
  }

  /** The history of a frame. */
  function FrameHistory<W>(trace: seq<Step<W>>): seq<Mark<W>> { [Edges(0)] + History(0, trace) }

  /** The histories up to each line's latch, in order. */
  function Drawn<W>(ms: seq<Mark<W>>): seq<seq<Mark<W>>> {
    if |ms| == 0 then []
    else Drawn(ms[..|ms| - 1]) + if ms[|ms| - 1].Latch? then [ms] else []
  }

  // ---- every line drawn, by its history ------------------------------------------------------

  /** A render side, by the history of its engine. */
  ghost predicate Tells<S, W>(en: Engine<S, W>, s: S, ms: seq<Mark<W>>, x: Side<S>) {
    && x.s == Eval(en, s, ms) && |x.drawn| == |Drawn(ms)|
    && forall l | 0 <= l < |x.drawn| :: x.drawn[l] == Eval(en, s, Drawn(ms)[l])
  }

  lemma More<S, W>(en: Engine<S, W>, s: S, ms: seq<Mark<W>>, m: Mark<W>)
    ensures Eval(en, s, ms + [m]) == Applied(en, Eval(en, s, ms), m)
    ensures Drawn(ms + [m]) == if m.Latch? then Drawn(ms) + [ms + [m]] else Drawn(ms)
  {
    assert (ms + [m])[..|ms|] == ms;
    DrawnOne(ms, m);
  }

  lemma DrawnOne<W>(ms: seq<Mark<W>>, m: Mark<W>)
    ensures Drawn(ms + [m]) == if m.Latch? then Drawn(ms) + [ms + [m]] else Drawn(ms)
  {
    assert (ms + [m])[..|ms|] == ms;
  }

  lemma TellsMore<S, W>(en: Engine<S, W>, s: S, ms: seq<Mark<W>>, x: Side<S>, m: Mark<W>)
    requires Tells(en, s, ms, x)
    ensures Tells(en, s, ms + [m],
                  Side(Applied(en, x.s, m), if m.Latch? then x.drawn + [Applied(en, x.s, m)] else x.drawn))
  {
    More(en, s, ms, m);
  }

  lemma HBlankTells<S, W>(en: Engine<S, W>, s: S, ms: seq<Mark<W>>, n: Now<S>)
    requires Tells(en, s, ms, n.side) && n.line < SCREEN_H
    ensures Tells(en, s, ms + [Latch(n.line), Carried, Unlatch], NowHBlank(en, n).side)
  {
    var a := ms + [Latch(n.line)];
    var p := en.preDraw(n.side.s, n.line);
    TellsMore(en, s, ms, n.side, Latch(n.line));
    TellsMore(en, s, a, Side(p, n.side.drawn + [p]), Carried);
    TellsMore(en, s, a + [Carried], Side(en.carry(p), n.side.drawn + [p]), Unlatch);
    assert a + [Carried] + [Unlatch] == ms + [Latch(n.line), Carried, Unlatch];
  }

  lemma StepTells<S, W>(en: Engine<S, W>, s: S, ms: seq<Mark<W>>, n: Now<S>, t: Step<W>)
    requires Tells(en, s, ms, n.side)
    ensures Tells(en, s, ms + Marks(n.line, t), NowStep(en, n, t).side)
  {
    assert ms + [] == ms;
    match t
    case Write(w) => TellsMore(en, s, ms, n.side, Wrote(w));
    case Scan => if n.line + 1 < SCREEN_H { TellsMore(en, s, ms, n.side, Edges(n.line + 1)); }
    case HBlank(_) => if n.line < SCREEN_H { HBlankTells(en, s, ms, n); }
    case _ =>
  }

  lemma {:induction false} RunTells<S, W>(en: Engine<S, W>, s: S, ms: seq<Mark<W>>, n: Now<S>, trace: seq<Step<W>>)
    requires Tells(en, s, ms, n.side)
    ensures Tells(en, s, ms + History(n.line, trace), NowRun(en, n, trace).side)
    decreases |trace|
  {
    if |trace| == 0 {
      assert ms + History(n.line, trace) == ms;
    } else {
      var t := trace[0];
      StepTells(en, s, ms, n, t);
      RunTells(en, s, ms + Marks(n.line, t), NowStep(en, n, t), trace[1..]);
      HistoryFrom(ms, n.line, trace);
    }
  }

  /** In every frame, whatever is written when and however late the lines are drawn: line l is drawn
      from the history of the frame up to l's own latch, and the state at the end is that of the
      whole history, for every engine. */
  lemma DrawnFromHistory<S, W>(en: Engine<S, W>, s: S, trace: seq<Step<W>>)
    requires Runnable(en, FrameStart(s), trace)
    requires var z := LazyRun(en, FrameStart(s), trace); z.Frontier() >= SCREEN_H && !z.inflight
    ensures var x, ms := LazyRun(en, FrameStart(s), trace).side, FrameHistory(trace);
      && x.s == Eval(en, s, ms) && |x.drawn| == |Drawn(ms)| == SCREEN_H
      && forall l | 0 <= l < SCREEN_H :: x.drawn[l] == Eval(en, s, Drawn(ms)[l])
  {
    More(en, s, [], Edges(0));
    assert [] + [Mark<W>.Edges(0)] == [Mark<W>.Edges(0)];
    RunTells(en, s, [Edges(0)], NowStart<S, W>(en, s), trace);
    BatchedDrawingIsExact(en, s, trace);
  }

  // ---- what those histories are ----------------------------------------------------------------

  ghost predicate Writes<W>(ms: seq<Mark<W>>, lo: nat, hi: nat)
    requires hi <= |ms|
  {
    forall k | lo <= k < hi :: ms[k].Wrote?
  }

  /** From index lo on: writes, line l's window edges, writes, and line l's latch at the end. */
  ghost predicate Leads<W>(h: seq<Mark<W>>, lo: nat, l: nat, k: nat) {
    && lo <= k < |h| - 1 && Writes(h, lo, k) && h[k] == Edges(l) && Writes(h, k + 1, |h| - 1)
    && h[|h| - 1] == Latch(l)
  }

  /** The first line's history: its window edges, writes, its latch. */
  ghost predicate Opens<W>(h: seq<Mark<W>>) { Leads(h, 0, 0, 0) }

  /** From line l's latch to that of the line after it: l's drawing and the latches after it, writes,
      the next line's window edges, writes, its latch. */
  ghost predicate Continues<W>(h: seq<Mark<W>>, next: seq<Mark<W>>, l: nat) {
    Since(h, next) && exists k :: LeadsOn(h, next, l, k)
  }

  ghost predicate LeadsOn<W>(h: seq<Mark<W>>, next: seq<Mark<W>>, l: nat, k: nat) { Leads(next, |h| + 2, l + 1, k) }

  ghost predicate Since<W>(h: seq<Mark<W>>, ms: seq<Mark<W>>) { h + [Carried, Unlatch] <= ms }

  /** The lines of a history latch in display order. */
  ghost predicate InOrder<W>(hs: seq<seq<Mark<W>>>) {
    && (|hs| > 0 ==> Opens(hs[0]))
    && forall l | 0 <= l < |hs| - 1 :: Continues(hs[l], hs[l + 1], l)
  }

  /** A history `ms` that has passed the latches of `hs`. Before line's HBlank it has the window edges
      at k, and writes since the line before; after it nothing but writes since the line. Past the
      display it does not matter. */
  ghost predicate Between<W>(hs: seq<seq<Mark<W>>>, ms: seq<Mark<W>>, line: nat, hblankDone: bool, k: nat) {
    && InOrder(hs) && |hs| == Min(SCREEN_H, if hblankDone then line + 1 else line)
    && (line < SCREEN_H ==>
         if hblankDone then Since(hs[line], ms) && Writes(ms, |hs[line]| + 2, |ms|)
         else if line == 0 then Before(ms, 0, line, k) && k == 0
         else Since(hs[line - 1], ms) && Before(ms, |hs[line - 1]| + 2, line, k))
  }

  /** From index lo on: writes, line l's window edges at k, and writes. */
  ghost predicate Before<W>(ms: seq<Mark<W>>, lo: nat, l: nat, k: nat) {
    lo <= k < |ms| && Writes(ms, lo, k) && ms[k] == Edges(l) && Writes(ms, k + 1, |ms|)
  }

  lemma SinceMore<W>(h: seq<Mark<W>>, ms: seq<Mark<W>>, m: Mark<W>)
    requires Since(h, ms)
    ensures Since(h, ms + [m])
  {
  }

  lemma WritesMore<W>(ms: seq<Mark<W>>, lo: nat, w: W)
    requires lo <= |ms| && Writes(ms, lo, |ms|)
    ensures Writes(ms + [Wrote(w)], lo, |ms| + 1)
  {
  }

  lemma BeforeMore<W>(ms: seq<Mark<W>>, lo: nat, l: nat, k: nat, w: W)
    requires Before(ms, lo, l, k)
    ensures Before(ms + [Wrote(w)], lo, l, k)
  {
  }

  lemma WriteBetween<W>(hs: seq<seq<Mark<W>>>, ms: seq<Mark<W>>, line: nat, done: bool, k: nat, w: W)
    requires Between(hs, ms, line, done, k)
    ensures Between(hs, ms + [Wrote(w)], line, done, k)
  {
    if line < SCREEN_H {
      if done {
        SinceMore(hs[line], ms, Wrote(w));
        WritesMore(ms, |hs[line]| + 2, w);
      } else if line == 0 {
        BeforeMore(ms, 0, line, k, w);
      } else {
        SinceMore(hs[line - 1], ms, Wrote(w));
        BeforeMore(ms, |hs[line - 1]| + 2, line, k, w);
      }
    }
  }

  lemma ScanBetween<W>(hs: seq<seq<Mark<W>>>, ms: seq<Mark<W>>, line: nat, k: nat)
    requires Between(hs, ms, line, true, k)
    ensures Between(hs, ms + Marks(line, Step<W>.Scan), line + 1, false, |ms|)
  {
    if line + 1 < SCREEN_H {
      SinceMore(hs[line], ms, Edges(line + 1));
    } else {
      assert ms + Marks(line, Step<W>.Scan) == ms;
    }
  }

  /** A line's latch continues the history of the line before. */
  lemma LatchBetween<W>(hs: seq<seq<Mark<W>>>, ms: seq<Mark<W>>, line: nat, k: nat)
    requires Between(hs, ms, line, false, k) && line < SCREEN_H
    ensures InOrder(hs + [ms + [Latch(line)]])
  {
    var h := ms + [Latch(line)];
    if line == 0 {
      assert Opens(h);
    } else {
      SinceMore(hs[line - 1], ms, Latch(line));
      assert LeadsOn(hs[line - 1], h, line - 1, k);
    }
    OneMoreInOrder(hs, h);
  }

  lemma OneMoreInOrder<W>(hs: seq<seq<Mark<W>>>, h: seq<Mark<W>>)
    requires InOrder(hs) && if |hs| == 0 then Opens(h) else Continues(hs[|hs| - 1], h, |hs| - 1)
    ensures InOrder(hs + [h])
  {
    var all := hs + [h];
    forall l | 0 <= l < |all| - 1 ensures Continues(all[l], all[l + 1], l) {
      if l < |hs| - 1 { assert Continues(hs[l], hs[l + 1], l); }
    }
  }

  lemma HBlankBetween<W>(hs: seq<seq<Mark<W>>>, ms: seq<Mark<W>>, line: nat, k: nat, hand: bool)
    requires Between(hs, ms, line, false, k)
    ensures Between(hs + Latched(ms, line, Step<W>.HBlank(hand)), ms + Marks(line, Step<W>.HBlank(hand)), line, true, k)
  {
    var r := ms + Marks(line, Step<W>.HBlank(hand));
    if line < SCREEN_H {
      LatchBetween(hs, ms, line, k);
      assert r == ms + [Latch(line)] + [Carried, Unlatch];
    } else {
      assert r == ms && hs + Latched(ms, line, Step<W>.HBlank(hand)) == hs;
    }
  }

  /** The history of the line that latches now, if one does. */
  function Latched<W>(ms: seq<Mark<W>>, line: nat, t: Step<W>): seq<seq<Mark<W>>> {
    if t.HBlank? && line < SCREEN_H then [ms + [Latch(line)]] else []
  }

  lemma DrawnMore<W>(ms: seq<Mark<W>>, line: nat, t: Step<W>)
    ensures Drawn(ms + Marks(line, t)) == Drawn(ms) + Latched(ms, line, t)
  {
    var r := ms + Marks(line, t);
    if t.HBlank? && line < SCREEN_H {
      var h := ms + [Latch(line)];
      DrawnOne(ms, Latch(line));
      DrawnOne(h, Carried);
      DrawnOne(h + [Carried], Unlatch);
      assert r == h + [Carried] + [Unlatch];
    } else if |r| > |ms| {
      DrawnOne(ms, r[|ms|]);
      assert r == ms + [r[|ms|]];
    } else {
      assert r == ms;
    }
  }

  lemma StepBetween<S, W>(en: Engine<S, W>, z: Lazy<S, W>, t: Step<W>, hs: seq<seq<Mark<W>>>, ms: seq<Mark<W>>, k: nat)
    requires Enabled(z, t) && Between(hs, ms, z.line, z.hblankDone, k)
    ensures var y, k' := LazyStep(en, z, t), if t.Scan? then |ms| else k;
      Between(hs + Latched(ms, z.line, t), ms + Marks(z.line, t), y.line, y.hblankDone, k')
  {
    if !t.HBlank? { assert hs + [] == hs; }
    match t
    case Write(w) => WriteBetween(hs, ms, z.line, z.hblankDone, k, w);
    case Scan => ScanBetween(hs, ms, z.line, k);
    case HBlank(hand) => HBlankBetween(hs, ms, z.line, k, hand);
    case Draw => assert ms + Marks(z.line, t) == ms;
    case Join => assert ms + Marks(z.line, t) == ms;
  }

  lemma {:induction false} RunBetween<S, W>(en: Engine<S, W>, z: Lazy<S, W>, trace: seq<Step<W>>, ms: seq<Mark<W>>,
                                            k: nat)
    requires Runnable(en, z, trace) && Between(Drawn(ms), ms, z.line, z.hblankDone, k)
    ensures InOrder(Drawn(ms + History(z.line, trace)))
    decreases |trace|
  {
    if |trace| == 0 {
      assert ms + History(z.line, trace) == ms;
    } else {
      var t, next := trace[0], ms + Marks(z.line, trace[0]);
      HistoryFrom(ms, z.line, trace);
      StepBetween(en, z, t, Drawn(ms), ms, k);
      DrawnMore(ms, z.line, t);
      RunBetween(en, LazyStep(en, z, t), trace[1..], next, if t.Scan? then |ms| else k);
    }
  }

  /** In every run the first line drawn follows its window edges and writes and ends in its latch, and
      each line's history continues that of the line before: its drawing, the latches after it,
      writes, the next window edges, writes, the next latch. */
  lemma LinesInOrder<S, W>(en: Engine<S, W>, s: S, trace: seq<Step<W>>)
    requires Runnable(en, FrameStart(s), trace)
    ensures var hs := Drawn(FrameHistory(trace));
      && (|hs| > 0 ==> Opens(hs[0])) && forall l | 0 <= l < |hs| - 1 :: Continues(hs[l], hs[l + 1], l)
  {
    var z: Lazy<S, W> := FrameStart(s);
    assert ([Mark<W>.Edges(0)])[..0] == [];
    RunBetween(en, z, trace, [Edges(0)], 0);
  }
}
