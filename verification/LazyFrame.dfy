/** Line accounting of a lazily drawn frame (src/core/gpu/gpu.cpp): which engine draws which
    display line when, over batching, trapped-store bursts, catch-ups, lag lines left on the
    worker, and batches deferred past the last line. */
module LazyFrame {
  import opened Basics

  const BURST_LIMIT := 16
  const BURST_LINES := 8
  const FUTILE_LIMIT := 4
  const PROBE_PERIOD := 64
  const LAG_TRAP_LIMIT := 4096
  const LAG_STORE_LIMIT := 1024
  const HAND_OFF_MIN := 24

  /** The per-engine state of the frame in progress. */
  datatype Eng = Eng(perLine: bool, next: nat, burst: bool, burstLeft: nat, bursts: nat, futile: nat, probeIn: int)

  /** Lines first .. end - 1; empty when first >= end. */
  datatype Range = Range(first: nat, end: nat) {
    predicate Has() { first < end }
    function Len(): nat { if Has() then end - first else 0 }
  }
  const NOTHING := Range(1, 0)

  /** What the code asks of its surroundings: whether the worker is asleep, whether engine B
      has a worker of its own, whether the output is scaled. */
  datatype Env = Env(parked: bool, split: bool, scaling: bool)

  /** Lines 0 .. n - 1, in order, each once. */
  ghost function Upto(n: nat): (r: seq<nat>)
    ensures |r| == n
  {
    if n == 0 then [] else Upto(n - 1) + [n - 1]
  }

  lemma {:induction false} EachLineOnce(n: nat)
    ensures |Upto(n)| == n && forall x | 0 <= x < n :: Upto(n)[x] == x
  {
    if n > 0 {
      EachLineOnce(n - 1);
    }
  }

  ghost predicate Complete(frame: seq<seq<nat>>)
  {
    frame == [Upto(SCREEN_H), Upto(SCREEN_H)]
  }

  // ---- a trapped store's effect on the two engines --------------------------------

  /** Engines a store takes out of batching for a burst: hit, batching, within their budget. */
  function BurstMask(eng: seq<Eng>, hit: seq<bool>): (m: seq<bool>)
    requires |eng| == 2 && |hit| == 2
    ensures |m| == 2
  {
    seq(2, e requires 0 <= e < 2 => hit[e] && !eng[e].perLine && eng[e].bursts + 1 < BURST_LIMIT)
  }

  /** Engines whose lines below the frontier the store draws before it lands. */
  function CaughtUp(eng: seq<Eng>, hit: seq<bool>): (m: seq<bool>)
    requires |eng| == 2 && |hit| == 2
    ensures |m| == 2
  {
    var m := BurstMask(eng, hit);
    if m[0] || m[1] then m else hit
  }

  /** Engine e is hit and out of budget while the store still buys the other engine a burst. */
  predicate Overtaken(eng: seq<Eng>, hit: seq<bool>, e: nat)
    requires |eng| == 2 && |hit| == 2 && e < 2
  {
    && hit[e] && !eng[e].perLine && eng[e].bursts + 1 >= BURST_LIMIT
    && hit[1 - e] && !eng[1 - e].perLine && eng[1 - e].bursts + 1 < BURST_LIMIT
  }

  /** A batching engine a store hits is caught up exactly when it is not overtaken: the budget
      check of one engine decides for both. */
  lemma StoreCatchesUp(eng: seq<Eng>, hit: seq<bool>, e: nat)
    requires |eng| == 2 && |hit| == 2 && e < 2 && hit[e] && !eng[e].perLine
    ensures CaughtUp(eng, hit)[e] <==> !Overtaken(eng, hit, e)
  {
    var m := BurstMask(eng, hit);
    assert m[0] == (hit[0] && !eng[0].perLine && eng[0].bursts + 1 < BURST_LIMIT);
    assert m[1] == (hit[1] && !eng[1].perLine && eng[1].bursts + 1 < BURST_LIMIT);
  }

  /** A store that hits one engine only always catches it up. */
  lemma OneEngineNeverOvertaken(eng: seq<Eng>, hit: seq<bool>, e: nat)
    requires |eng| == 2 && |hit| == 2 && e < 2 && hit[e] && !hit[1 - e] && !eng[e].perLine
    ensures CaughtUp(eng, hit)[e]
  {
    StoreCatchesUp(eng, hit, e);
  }

  /** An engine caught up with the frontier when asked. */
  function Caught(asked: bool, due: nat, g: Eng): Eng
  {
    if asked && g.next < due then g.(next := due) else g
  }

  /** An engine taken out of batching when asked, for a burst or for the rest of the frame. */
  function PerLine(asked: bool, burst: bool, g: Eng): Eng
  {
    if asked then g.(perLine := true, burst := burst, burstLeft := if burst then BURST_LINES else g.burstLeft) else g
  }

  /** A store's charge on a batching engine's burst budget. */
  function Charged(hit: bool, g: Eng): Eng
  {
    if hit && !g.perLine then g.(bursts := g.bursts + 1) else g
  }

  /** The engines after a store reaching a batching one: charged, then caught up and per line for
      a burst within their budget, or with none within it for the rest of the frame. */
  function Stored(eng: seq<Eng>, hit: seq<bool>, due: nat): (after: seq<Eng>)
    requires |eng| == 2 && |hit| == 2
    ensures |after| == 2
  {
    var burst := BurstMask(eng, hit);
    var some := burst[0] || burst[1];
    var mask := CaughtUp(eng, hit);
    [ PerLine(mask[0], some, Caught(mask[0], due, Charged(hit[0], eng[0]))),
      PerLine(mask[1], some, Caught(mask[1], due, Charged(hit[1], eng[1]))) ]
  }

  /** Engine e, if hit and batching, stands at the frontier when the store lands; an overtaken
      one still batches from where it stood. */
  predicate Landed(before: seq<Eng>, hit: seq<bool>, due: nat, e: nat)
    requires |before| == 2 && |hit| == 2 && e < 2 && before[e].next <= due
  {
    hit[e] && !before[e].perLine ==>
      if Overtaken(before, hit, e) then Stored(before, hit, due)[e] == before[e].(bursts := before[e].bursts + 1)
      else Stored(before, hit, due)[e].next == due && Stored(before, hit, due)[e].perLine
  }

  lemma StoredLands(before: seq<Eng>, hit: seq<bool>, due: nat, e: nat)
    requires |before| == 2 && |hit| == 2 && e < 2 && before[e].next <= due
    ensures Landed(before, hit, due, e)
  {
    if hit[e] && !before[e].perLine {
      StoreCatchesUp(before, hit, e);
    }
  }

  /** An engine at the frontier stays there over a store. */
  lemma StoredStays(before: seq<Eng>, hit: seq<bool>, due: nat, e: nat)
    requires |before| == 2 && |hit| == 2 && e < 2 && before[e].next == due
    ensures Stored(before, hit, due)[e].next == due
  {
  }

  /** How a trapped store that can change engine e finds it. */
  ghost predicate Lands(before: seq<Eng>, hit: seq<bool>, due: nat, batched: bool, e: nat)
    requires |before| == |hit| == 2 && e < 2
  {
    && before[e].next <= due
    && (hit[e] ==> if batched && !before[e].perLine then Landed(before, hit, due, e) else before[e].next == due)
  }

  /** An engine a trapped store can change, unless it is overtaken, stands at the frontier. */
  lemma Reached(before: seq<Eng>, after: seq<Eng>, hit: seq<bool>, due: nat, batched: bool, e: nat)
    requires |before| == |after| == |hit| == 2 && e < 2 && hit[e] && Lands(before, hit, due, batched, e)
    requires after == if batched then Stored(before, hit, due) else before
    requires !(batched && Overtaken(before, hit, e))
    ensures after[e].next == due
  {
    if batched && before[e].perLine {
      StoredStays(before, hit, due, e);
    }
  }

  /** The engines a store to engine B's windows, or engine A's, reaches. */
  function To(toB: bool): (reach: seq<bool>)
    ensures |reach| == 2
  {
    [!toB, toB]
  }

  /** A store reaches an engine that batches. */
  predicate Batching(eng: seq<Eng>, hit: seq<bool>)
    requires |eng| == 2 && |hit| == 2
  {
    (hit[0] && !eng[0].perLine) || (hit[1] && !eng[1].perLine)
  }

  /** One more line of an engine's burst drawn; the lines after its last one batch again. */
  function Ticked(line: nat, g: Eng): Eng
  {
    if !g.burst then g
    else if g.burstLeft == 1 && line < SCREEN_H - 1 then
      g.(burst := false, burstLeft := 0, perLine := false, next := line + 1)
    else g.(burstLeft := if g.burstLeft > 0 then g.burstLeft - 1 else 0)
  }

  /** The lines `on_hblank` draws for an engine at a display line: this one per line, with any
      skipped before it, or the whole batch at the last. */
  function LinesAt(lazy: bool, line: nat, g: Eng): Range
    requires line < SCREEN_H
  {
    var batch := lazy && !g.perLine;
    if batch && line != SCREEN_H - 1 then NOTHING
    else if batch then Range(g.next, SCREEN_H)
    else Range(if g.next < line then g.next else line, line + 1)
  }

  /** An engine past the lines of range r. */
  function Past(g: Eng, r: Range): Eng
  {
    if r.Has() then g.(next := r.end) else g
  }

  /** An engine past the HBlank of a display line. */
  function Stepped(lazy: bool, line: nat, g: Eng): Eng
    requires line < SCREEN_H
  {
    Ticked(line, Past(g, LinesAt(lazy, line, g)))
  }

  /** An engine in the middle of a batch or at the start of a burst. */
  predicate AtBurst(g: Eng, l: nat)
  {
    if g.burst then g.perLine && g.burstLeft == BURST_LINES && g.next == l else !g.perLine
  }

  /** An engine whose burst has `left` lines to draw, from line l on; one that does not burst
      stays as it is. */
  function InBurst(g: Eng, l: nat, left: nat): Eng
  {
    if !g.burst then g
    else if left == 0 then g.(burst := false, burstLeft := 0, perLine := false, next := l)
    else g.(next := l, burstLeft := left)
  }

  lemma StepsInBurst(g: Eng, l: nat, left: nat)
    requires 0 < left && l + 1 < SCREEN_H && (if g.burst then g.perLine else !g.perLine)
    ensures Stepped(true, l, InBurst(g, l, left)) == InBurst(g, l + 1, left - 1)
  {
  }

  /** An engine at the start of a frame that may batch: one that keeps ending its frames per
      line starts them per line, bar a probe. */
  function Restarted(tried: bool, lazy: bool, g: Eng): Eng
    requires g.probeIn > 0
  {
    var futile := if !tried then g.futile else if g.perLine then g.futile + 1 else 0;
    var probe := lazy && (futile < FUTILE_LIMIT || g.probeIn == 1);
    Eng(lazy && !probe, 0, false, 0, 0, futile,
        if !lazy then g.probeIn else if probe then PROBE_PERIOD else g.probeIn - 1)
  }

  /** An engine at the start of a frame: in one that does not batch, per line. */
  function Opened(batches: bool, g: Eng): Eng
  {
    if batches then g else g.(perLine := true)
  }

  /** k frames more, each allowed to batch and each ended per line. */
  function FutileFrames(k: nat, g: Eng): (r: Eng)
    requires g.probeIn > 0
    ensures r.probeIn > 0
    decreases k
  {
    if k == 0 then g else Restarted(true, true, FutileFrames(k - 1, g).(perLine := true))
  }

  /** An engine that keeps ending its frames per line batches in its first three after a frame
      it batched through, then only to probe: every sixty-fourth frame. */
  lemma {:induction false} FutilityRule(k: nat, g: Eng)
    requires g.futile == 0 && g.probeIn == PROBE_PERIOD && 0 < k
    ensures FutileFrames(k, g).perLine <==> k >= FUTILE_LIMIT && (k - FUTILE_LIMIT + 1) % PROBE_PERIOD != 0
    ensures FutileFrames(k, g).futile == k
    ensures FutileFrames(k, g).probeIn
         == if k < FUTILE_LIMIT then PROBE_PERIOD else PROBE_PERIOD - (k - FUTILE_LIMIT + 1) % PROBE_PERIOD
  {
    if k > 1 {
      FutilityRule(k - 1, g);
    }
  }

  /** An engine never past the frontier, right at it when it draws per line, and at the end of
      the frame once the frontier is. */
  predicate Paced(g: Eng, lazy: bool, frontier: nat)
  {
    && g.next <= frontier && g.next <= SCREEN_H
    && (g.perLine && frontier < SCREEN_H ==> g.next == frontier)
    && (frontier >= SCREEN_H ==> g.next == SCREEN_H)
    && (g.burst ==> g.perLine && lazy && (frontier < SCREEN_H ==> g.burstLeft > 0))
    && (!lazy ==> g.perLine)
    && g.probeIn > 0
  }

  datatype Event =
    | Tick(env: Env, lazyOn: bool, lagOn: bool)
    | Trapped(reachA: bool, reachB: bool, env: Env)
    | MapSwitch(covered: bool, env: Env)
    | DisplayBank(env: Env)

  /** HBlanks and scanline starts among the events. */
  ghost function Ticks(events: seq<Event>): nat
  {
    if events == [] then 0 else (if events[0].Tick? then 1 else 0) + Ticks(events[1..])
  }

  class Gpu {
    var line: nat
    var hblankDone: bool
    var lazyFrame: bool
    var lagFrame: bool
    var lazyTried: bool
    var eng: seq<Eng>
    var inflight: seq<bool>          // that engine's lines are on a worker
    var job: seq<Range>              // ... these
    var bjob: Range                  // ... or, for engine B deferred, these
    var aDeferred: bool
    var bDeferred: bool
    var scaleInflight: bool
    var stale: bool                  // the map has changed under what is in flight
    var trapArmed: bool
    var trap: seq<bool>              // whose VRAM windows are trapped
    var frameFinished: bool
    var lagHits: nat
    var lagStores: nat
    ghost var lifted: bool           // a fall back of this frame lifted the trap over a deferred batch
    ghost var drawn: seq<seq<nat>>         // lines of this frame drawn so far, in drawing order
    ghost var frames: seq<seq<seq<nat>>>   // the finished frames

    /** The first frame a reset leads to, from its `begin_frame`. */
    constructor (lazyOn: bool, lagOn: bool)
      ensures Valid() && Settled() && line == 0 && !hblankDone && frames == [] && !lifted
      ensures lazyFrame == lazyOn && lagFrame == lagOn
      ensures eng == [Eng(!lazyOn, 0, false, 0, 0, 0, PROBE_PERIOD), Eng(!lazyOn, 0, false, 0, 0, 0, PROBE_PERIOD)]
    {
      line, hblankDone, lazyTried, frames := 0, false, false, [];
      inflight, job, bjob := [false, false], [NOTHING, NOTHING], NOTHING;
      aDeferred, bDeferred, scaleInflight, stale, lifted := false, false, false, false, false;
      eng := seq(2, _ => Eng(false, SCREEN_H, false, 0, 0, 0, PROBE_PERIOD));
      trap, trapArmed, drawn := [false, false], false, [[], []];
      new;
      BeginFrame(lazyOn, lagOn);
    }

    function Frontier(): nat
      reads this
    {
      if hblankDone then line + 1 else line
    }

    /** HBlanks and scanline starts since the first frame began. */
    ghost function Clock(): nat
      reads this
    {
      2 * LINES * |frames| + 2 * line + if hblankDone then 1 else 0
    }

    /** Display lines a late write can no longer reach. */
    function Due(): nat
      reads this
    {
      if Frontier() < SCREEN_H then Frontier() else SCREEN_H
    }

    /** `lines_in_flight`. */
    predicate InFlight()
      requires |inflight| == 2
      reads this
    {
      inflight[0] || inflight[1] || scaleInflight
    }

    function JobOf(e: nat): Range
      requires e < 2 && |job| == 2
      reads this
    {
      if e == 1 && bDeferred then bjob else job[e]
    }

    ghost predicate Shape()
      reads this
    {
      |eng| == 2 && |inflight| == 2 && |job| == 2 && |trap| == 2 && |drawn| == 2
    }

    /** Engine e's lines up to n: drawn in order, each once, the last of them on a worker when
        one is at work for e. */
    ghost predicate Accounted(e: nat, n: nat)
      requires e < 2 && Shape()
      reads this
    {
      if inflight[e] then JobOf(e).first <= JobOf(e).end == n && drawn[e] == Upto(JobOf(e).first)
      else drawn[e] == Upto(n)
    }

    ghost predicate Lines()
      reads this
    {
      && Shape() && Accounted(0, eng[0].next) && Accounted(1, eng[1].next)
      && eng[0].next <= SCREEN_H && eng[1].next <= SCREEN_H
    }

    /** What may be on a worker: deferred batches of a finished frame; otherwise engine A's lines
        in a lag frame, or engine B's under the trap. The trap outlives the frame's last line
        only with a deferred batch, and a map is stale only while something is in flight. */
    ghost predicate Jobs()
      requires Shape()
      reads this
    {
      && (aDeferred ==> inflight[0] && frameFinished)
      && (bDeferred ==> aDeferred && inflight[1])
      && (inflight[0] && !aDeferred ==> lagFrame && !frameFinished)
      && (inflight[1] && !bDeferred ==> trapArmed && trap[1] && !frameFinished)
      && frameFinished == (eng[0].next == SCREEN_H && eng[1].next == SCREEN_H)
      && (frameFinished && trapArmed ==> aDeferred) && (stale ==> InFlight())
    }

    predicate Wanted(e: nat)
      requires e < 2 && |eng| == 2
      reads this
    {
      (e == 0 && lagFrame) || (lazyFrame && !eng[e].perLine)
    }

    /** The trap lies over exactly the windows that want it. */
    ghost predicate TrapFits()
      requires Shape()
      reads this
    {
      trapArmed == (Wanted(0) || Wanted(1)) && (trapArmed ==> trap[0] == Wanted(0) && trap[1] == Wanted(1))
    }

    /** Lines on a worker are under an armed trap over their engine's windows. */
    ghost predicate Covered()
      requires Shape()
      reads this
    {
      (inflight[0] ==> trapArmed && trap[0]) && (inflight[1] ==> trapArmed && trap[1])
    }

    ghost predicate Pace(e: nat)
      requires e < 2 && Shape()
      reads this
    {
      PaceTo(e, Frontier())
    }

    ghost predicate PaceTo(e: nat, frontier: nat)
      requires e < 2 && Shape()
      reads this
    {
      Paced(eng[e], lazyFrame, frontier)
    }

    ghost predicate Running()
      reads this
    {
      && Lines() && Jobs() && (inflight[1] ==> bDeferred) && Pace(0) && Pace(1)
      && line < LINES && forall f | f in frames :: Complete(f)
    }

    /** What every event of a run keeps. */
    ghost predicate Valid()
      reads this
    {
      Running() && (!frameFinished ==> TrapFits())
    }

    /** Nothing on a worker. */
    ghost predicate Settled()
      requires Shape()
      reads this
    {
      !inflight[0] && !inflight[1] && !aDeferred && !bDeferred && !scaleInflight && !stale
    }

    /** The lines of engine e drawn: up to its job if it has one, up to its next otherwise. */
    lemma DrawnTo(e: nat)
      requires e < 2 && Valid()
      ensures |drawn[e]| == (if inflight[e] then JobOf(e).first else eng[e].next) <= Due()
      ensures eng[e].next <= Due() && (frameFinished ==> eng[e].next == Due())
    {
      assert Paced(eng[e], lazyFrame, Frontier());
    }

    lemma BothDrawn()
      requires Valid()
      ensures |drawn| == 2 && |drawn[0]| <= Due() && |drawn[1]| <= Due()
      ensures Settled() && frameFinished ==> |drawn[0]| == |drawn[1]| == Due()
    {
      DrawnTo(0);
      DrawnTo(1);
    }

    /** An engine whose windows no trap covers has drawn every line below the frontier. */
    lemma Untrapped(e: nat)
      requires e < 2 && Valid() && Covered() && !(trapArmed && trap[e])
      ensures |drawn[e]| == Due()
    {
      DrawnTo(e);
      assert Paced(eng[e], lazyFrame, Frontier());
    }

    /** Lines once drawn stay drawn. */
    twostate predicate Grown()
      reads this
    {
      |drawn| == old(|drawn|) == 2 && |drawn[0]| >= old(|drawn[0]|) && |drawn[1]| >= old(|drawn[1]|)
    }

    /** `step_engine` over a range. */
    method Draw(e: nat, r: Range)
      requires e < 2 && Shape() && (r.Has() ==> drawn[e] == Upto(r.first))
      modifies this`drawn
      ensures drawn == old(drawn)[e := if r.Has() then Upto(r.end) else old(drawn)[e]]
    {
      var l := r.first;
      while l < r.end
        invariant r.first <= l && (r.Has() ==> l <= r.end)
        invariant drawn == old(drawn)[e := if r.Has() then Upto(l) else old(drawn)[e]]
      {
        drawn := drawn[e := drawn[e] + [l]];
        l := l + 1;
      }
    }

    /** `frame_done` of one engine may only run when every line of the frame is drawn. */
    method FrameDone(ghost e: nat)
      requires e < 2 && Shape() && drawn[e] == Upto(SCREEN_H)
    {
    }

    method DisarmTrap()
      modifies this`trapArmed
      ensures !trapArmed
    {
      trapArmed := false;
    }

    /** `arm_trap`: over a batching engine's windows, and engine A's in a lag frame. */
    method ArmTrap()
      requires Shape()
      modifies this`trapArmed, this`trap
      ensures Shape() && TrapFits()
    {
      var a, b := Wanted(0), Wanted(1);
      if !a && !b {
        DisarmTrap();
        return;
      }
      trap := [a, b];
      trapArmed := true;
    }

    /** Engine e's job, if it has one, follows on from what is drawn. */
    ghost predicate JobReady(e: nat)
      requires e < 2 && Shape()
      reads this
    {
      inflight[e] ==> JobOf(e).first <= JobOf(e).end && drawn[e] == Upto(JobOf(e).first)
    }

    /** Engine e's drawn lines once its job has run. */
    ghost function Joined(e: nat): seq<nat>
      requires e < 2 && Shape()
      reads this
    {
      if inflight[e] then Upto(JobOf(e).end) else drawn[e]
    }

    /** The worker jobs run to their ends. */
    method RunJobs()
      requires Shape() && JobReady(0) && JobReady(1)
      modifies this`drawn
      ensures Shape() && drawn == [old(Joined(0)), old(Joined(1))]
    {
      ghost var a, b := Joined(0), Joined(1);
      assert drawn == [drawn[0], drawn[1]];
      if inflight[0] {
        Draw(0, job[0]);
      }
      assert drawn[0] == a && drawn[1] == old(drawn[1]);
      if inflight[1] {
        Draw(1, JobOf(1));
      }
      assert drawn[0] == a && drawn[1] == b;
    }

    /** `join_worker` from where the jobs have run: a deferred batch ends its frame. */
    method EndDeferred()
      requires Shape() && !inflight[0] && !inflight[1] && !scaleInflight && !stale
      requires aDeferred && frameFinished ==> drawn[0] == Upto(SCREEN_H)
      requires bDeferred && frameFinished ==> drawn[1] == Upto(SCREEN_H)
      modifies this`aDeferred, this`bDeferred, this`trapArmed
      ensures Settled() && trapArmed == (old(trapArmed) && !(old(aDeferred) && frameFinished))
    {
      if bDeferred {
        bDeferred := false;
        if frameFinished {
          FrameDone(1);
        }
      }
      if aDeferred {
        aDeferred := false;
        if frameFinished {
          FrameDone(0);
          DisarmTrap();
        }
      }
    }

    /** `join_worker`. */
    method JoinWorker()
      requires Shape() && JobReady(0) && JobReady(1) && (stale ==> InFlight())
      requires aDeferred ==> inflight[0] && (frameFinished ==> JobOf(0).end == SCREEN_H)
      requires bDeferred ==> inflight[1] && (frameFinished ==> JobOf(1).end == SCREEN_H)
      modifies this`drawn, this`inflight, this`scaleInflight, this`stale, this`aDeferred, this`bDeferred, this`trapArmed
      ensures Grown()
      ensures Shape() && Settled() && drawn == [old(Joined(0)), old(Joined(1))]
      ensures trapArmed == (old(trapArmed) && !(old(aDeferred) && frameFinished))
    {
      assert drawn == [drawn[0], drawn[1]];
      if InFlight() {
        RunJobs();
        inflight, scaleInflight, stale := [false, false], false, false;
        EndDeferred();
      }
    }

    /** Hand ranges to the worker. */
    method Hand(a: Range, b: Range)
      modifies this`job, this`inflight
      ensures job == [a, b] && inflight == [a.Has(), b.Has()]
    {
      job := [a, b];
      inflight := [a.Has(), b.Has()];
    }

    function NextAfter(e: nat, r: Range): nat
      requires e < 2 && |eng| == 2
      reads this
    {
      if r.Has() then r.end else eng[e].next
    }

    /** Engine A's batch to the last line, and engine B's when it has a worker of its own,
        deferred past the last line. */
    method Defer(a: Range, b: Range, env: Env) returns (bHanded: bool)
      requires Shape() && Settled() && a.Has()
      modifies this`inflight, this`aDeferred, this`bDeferred, this`job, this`bjob
      ensures Shape() && aDeferred && inflight[0] && JobOf(0) == a && bHanded == bDeferred == inflight[1]
      ensures bDeferred ==> b.Has() && JobOf(1) == b && trap[1]
    {
      Hand(a, NOTHING);
      aDeferred, bHanded := true, false;
      if env.split && b.Has() && b.end == SCREEN_H && b.Len() >= HAND_OFF_MIN && trapArmed && trap[1] {
        bjob := b;
        inflight := inflight[1 := true];
        bDeferred, bHanded := true, true;
      }
    }

    /** Engine e stands at the start of range r. */
    ghost predicate At(e: nat, r: Range)
      requires e < 2 && Shape()
      reads this
    {
      !inflight[e] && drawn[e] == Upto(if r.Has() then r.first else eng[e].next)
    }

    /** Engine A's range is its run to the last line and may stay in flight past it. */
    predicate Deferrable(a: Range, b: Range, env: Env)
      requires |trap| == 2
      reads this
    {
      && a.Has() && a.end == SCREEN_H && trapArmed && trap[0]
      && (a.Len() >= HAND_OFF_MIN || (!env.parked && a.Len() >= b.Len()))
    }

    /** Engine A's range of a lag frame short of the last line, with nothing of engine B's handed over. */
    predicate Lags(a: Range, b: Range, env: Env)
      reads this
    {
      lagFrame && a.Has() && a.end < SCREEN_H && (b.Has() ==> b.end < SCREEN_H) && !env.scaling
    }

    /** The branches of `render_ranges` that hand a range over: deferred past the last line under
        the trap, by a lag frame, or engine B's alone. */
    method HandOver(a: Range, b: Range, env: Env) returns (aHanded: bool, bHanded: bool)
      requires Shape() && Settled() && At(0, a) && At(1, b)
      modifies this`drawn, this`inflight, this`scaleInflight, this`aDeferred, this`bDeferred, this`job, this`bjob
      ensures Grown()
      ensures Shape() && (aHanded ==> a.Has()) && (bHanded ==> b.Has())
      ensures aDeferred == old(Deferrable(a, b, env)) && (Lags(a, b, env) ==> aHanded && !bHanded)
      ensures if aHanded then inflight[0] && Accounted(0, a.end) else At(0, a)
      ensures if bHanded then Accounted(1, b.end) else At(1, b)
      ensures aDeferred ==> inflight[0] && a.end == SCREEN_H && trapArmed && trap[0]
      ensures bDeferred ==> aDeferred && inflight[1] && trap[1]
      ensures aDeferred && !bDeferred ==> !inflight[1]
    {
      aHanded, bHanded := false, false;
      if Deferrable(a, b, env) {
        aHanded := true;
        bHanded := Defer(a, b, env);
      } else if lagFrame && (a.Has() || (b.Has() && env.scaling)) {
        if b.Has() && env.scaling {
          Draw(1, b);
          bHanded, scaleInflight := true, true;
        }
        Hand(a, NOTHING);
        aHanded := a.Has();
      } else if b.Has() && (b.Len() >= HAND_OFF_MIN || !env.parked) {
        Hand(NOTHING, b);
        bHanded := true;
      }
    }

    /** The drawing of `render_ranges`: what is not handed over is drawn here. */
    method HandOut(a: Range, b: Range, env: Env) returns (aHanded: bool, bHanded: bool)
      requires Shape() && Settled() && At(0, a) && At(1, b)
      modifies this`drawn, this`inflight, this`scaleInflight, this`aDeferred, this`bDeferred, this`job, this`bjob
      ensures Grown()
      ensures Shape() && Accounted(0, NextAfter(0, a)) && Accounted(1, NextAfter(1, b))
      ensures aDeferred ==> inflight[0] && a.Has() && a.end == SCREEN_H && trapArmed && trap[0]
      ensures bDeferred ==> aDeferred && inflight[1] && trap[1]
      ensures aDeferred && !bDeferred ==> !inflight[1]
      ensures (inflight[0] ==> aHanded) && (inflight[1] ==> bHanded) && (bHanded ==> b.Has())
      ensures aDeferred == old(Deferrable(a, b, env)) && (Lags(a, b, env) ==> aHanded && !bHanded && inflight[0])
    {
      aHanded, bHanded := HandOver(a, b, env);
      if a.Has() && !aHanded {
        Draw(0, a);
      }
      if b.Has() && !bHanded {
        Draw(1, b);
      }
    }

    /** Whether lines just handed out may stay on the worker until the next HBlank: in a lag
        frame, short of the last line, engine B's only under a trap over its windows. */
    predicate MayLag(aHanded: bool, bHanded: bool, last: nat)
      requires |trap| == 2
      reads this
    {
      (aHanded || bHanded || scaleInflight) && lagFrame && last < SCREEN_H && !(bHanded && !(trapArmed && trap[1]))
    }

    /** The ranges handed out or drawn, not yet counted. */
    ghost predicate Started(a: Range, b: Range)
      requires Shape()
      reads this
    {
      && Accounted(0, NextAfter(0, a)) && Accounted(1, NextAfter(1, b))
      && (aDeferred ==> inflight[0] && a.Has() && a.end == SCREEN_H && trapArmed && trap[0])
      && (bDeferred ==> aDeferred && inflight[1] && trap[1])
      && (aDeferred && !bDeferred ==> !inflight[1])
      && (inflight[0] && !aDeferred ==> lagFrame && (!a.Has() || a.end < SCREEN_H) && (!b.Has() || b.end < SCREEN_H))
      && (inflight[1] && !bDeferred ==> b.Has() && trapArmed && trap[1])
      && (inflight[1] && !bDeferred ==> (!a.Has() || a.end < SCREEN_H) && (!b.Has() || b.end < SCREEN_H))
    }

    /** `render_ranges` up to the join it ends with. */
    method StartRanges(a: Range, b: Range, env: Env)
      requires Shape() && Settled() && At(0, a) && At(1, b) && (a.Has() || b.Has())
      modifies this`drawn, this`inflight, this`scaleInflight, this`stale, this`aDeferred, this`bDeferred,
               this`trapArmed, this`job, this`bjob
      ensures Grown()
      ensures Shape() && Started(a, b) && !stale
      ensures trapArmed == old(trapArmed) && aDeferred == old(Deferrable(a, b, env))
      ensures (Lags(a, b, env) ==> inflight[0])
    {
      var last := if a.Has() && (!b.Has() || a.end > b.end) then a.end else b.end;
      var aHanded, bHanded := HandOut(a, b, env);
      if !aDeferred && !MayLag(aHanded, bHanded, last) {
        JoinWorker();
      }
    }

    /** Both engines past the last line: their frame ends, now or at the join. */
    method FinishFrame()
      requires Lines() && (frameFinished ==> eng[0].next == SCREEN_H && eng[1].next == SCREEN_H)
      requires !frameFinished && !stale
      requires aDeferred ==> inflight[0] && eng[0].next == SCREEN_H && eng[1].next == SCREEN_H
      requires bDeferred ==> aDeferred && inflight[1]
      requires aDeferred && !bDeferred ==> !inflight[1]
      requires inflight[0] && !aDeferred ==> lagFrame && !(eng[0].next == SCREEN_H && eng[1].next == SCREEN_H)
      requires inflight[1] && !bDeferred ==>
        trapArmed && trap[1] && !(eng[0].next == SCREEN_H && eng[1].next == SCREEN_H)
      modifies this`drawn, this`inflight, this`scaleInflight, this`stale, this`aDeferred, this`bDeferred,
               this`trapArmed, this`frameFinished
      ensures Grown()
      ensures Lines() && Jobs() && !stale
      ensures inflight == old(inflight) && aDeferred == old(aDeferred) && bDeferred == old(bDeferred)
      ensures aDeferred || !frameFinished ==> trapArmed == old(trapArmed)
    {
      if eng[0].next >= SCREEN_H && eng[1].next >= SCREEN_H {
        frameFinished := true;
        if aDeferred {
          if !bDeferred {
            FrameDone(1);
          }
        } else {
          assert inflight == [false, false];
          JoinWorker();
          FrameDone(0);
          FrameDone(1);
          DisarmTrap();
        }
      }
    }

    /** Engine e with its next line after range r. */
    function After(e: nat, r: Range): Eng
      requires e < 2 && |eng| == 2
      reads this
    {
      Past(eng[e], r)
    }

    /** r is the next lines of engine e. */
    predicate Follows(e: nat, r: Range)
      requires e < 2 && |eng| == 2
      reads this
    {
      r.Has() ==> r.first == eng[e].next && r.end <= SCREEN_H
    }

    /** `render_ranges` after its lines are handed out or drawn: the engines move on. */
    method Advance(a: Range, b: Range)
      requires Shape() && Started(a, b) && Follows(0, a) && Follows(1, b) && !frameFinished && !stale
      requires (a.Has() || b.Has())
      requires eng[0].next <= SCREEN_H && eng[1].next <= SCREEN_H
      requires a.Has() && a.end == SCREEN_H ==> NextAfter(1, b) == SCREEN_H
      modifies this`drawn, this`inflight, this`scaleInflight, this`stale, this`aDeferred, this`bDeferred,
               this`trapArmed, this`eng, this`frameFinished
      ensures Grown()
      ensures Lines() && Jobs() && !stale && eng == [old(After(0, a)), old(After(1, b))]
      ensures inflight == old(inflight) && aDeferred == old(aDeferred)
      ensures !frameFinished ==> trapArmed == old(trapArmed)
      ensures aDeferred ==> trapArmed && trap[0] && (bDeferred ==> trap[1])
      ensures inflight[1] && !bDeferred ==> b.Has()
    {
      eng := [After(0, a), After(1, b)];
      FinishFrame();
    }

    /** `render_ranges`: each range is the next lines of its engine, and both reach the last line
        together. */
    method RenderRanges(a: Range, b: Range, env: Env)
      requires Lines() && Jobs() && Follows(0, a) && Follows(1, b)
      requires a.Has() && a.end == SCREEN_H ==> NextAfter(1, b) == SCREEN_H
      modifies this`drawn, this`inflight, this`scaleInflight, this`stale, this`aDeferred, this`bDeferred,
               this`trapArmed,
               this`job, this`bjob, this`eng, this`frameFinished
      ensures Grown()
      ensures Lines() && Jobs() && eng == [old(After(0, a)), old(After(1, b))]
      ensures !frameFinished ==> trapArmed == old(trapArmed)
      ensures (a.Has() || b.Has()) && aDeferred ==> trapArmed && trap[0] && (bDeferred ==> trap[1])
      ensures (a.Has() || b.Has()) && inflight[1] && !bDeferred ==> b.Has()
      ensures !a.Has() && !b.Has() ==> trapArmed == old(trapArmed) && inflight == old(inflight)
      ensures !a.Has() && !b.Has() ==> aDeferred == old(aDeferred) && bDeferred == old(bDeferred)
      ensures stale == (old(stale) && !a.Has() && !b.Has())
      ensures a.Has() || b.Has() ==> aDeferred == old(Deferrable(a, b, env)) && (Lags(a, b, env) ==> inflight[0])
    {
      if !a.Has() && !b.Has() {
        assert eng == [eng[0], eng[1]];
        return;
      }
      DrawRanges(a, b, env);
    }

    /** `render_ranges` with lines to draw. */
    method DrawRanges(a: Range, b: Range, env: Env)
      requires Lines() && Jobs() && Follows(0, a) && Follows(1, b) && (a.Has() || b.Has())
      requires a.Has() && a.end == SCREEN_H ==> NextAfter(1, b) == SCREEN_H
      modifies this`drawn, this`inflight, this`scaleInflight, this`stale, this`aDeferred, this`bDeferred,
               this`trapArmed,
               this`job, this`bjob, this`eng, this`frameFinished
      ensures Grown()
      ensures Lines() && Jobs() && !stale && eng == [old(After(0, a)), old(After(1, b))]
      ensures !frameFinished ==> trapArmed == old(trapArmed)
      ensures aDeferred ==> trapArmed && trap[0] && (bDeferred ==> trap[1])
      ensures inflight[1] && !bDeferred ==> b.Has()
      ensures aDeferred == old(Deferrable(a, b, env)) && (Lags(a, b, env) ==> inflight[0])
    {
      assert !frameFinished;
      JoinWorker();
      StartRanges(a, b, env);
      Advance(a, b);
    }

    /** Engine e's lines still to draw below the frontier, when the caller asks for them. */
    function DueRange(asked: bool, e: nat): Range
      requires e < 2 && |eng| == 2
      reads this
    {
      if asked && eng[e].next < Due() then Range(eng[e].next, Due()) else NOTHING
    }

    /** An asked engine has lines to draw below the frontier. */
    predicate Behind(mask: seq<bool>)
      requires |mask| == 2 && |eng| == 2
      reads this
    {
      (mask[0] && eng[0].next < Due()) || (mask[1] && eng[1].next < Due())
    }

    /** Lines due below the frontier, drawn and joined. */
    method DrawDue(a: Range, b: Range, env: Env)
      requires Lines() && Jobs() && (a.Has() || b.Has()) && Follows(0, a) && Follows(1, b)
      requires (a.Has() ==> a.end < SCREEN_H) && (b.Has() ==> b.end < SCREEN_H)
      modifies this`drawn, this`inflight, this`scaleInflight, this`stale, this`aDeferred, this`bDeferred,
               this`trapArmed,
               this`job, this`bjob, this`eng, this`frameFinished
      ensures Grown()
      ensures Lines() && Jobs() && Settled() && eng == [old(After(0, a)), old(After(1, b))]
      ensures !frameFinished ==> trapArmed == old(trapArmed)
    {
      RenderRanges(a, b, env);
      JoinWorker();
    }

    /** `catch_up`: the asked engines are drawn to the frontier, with nothing left on the worker
        if any line was due. */
    method CatchUp(mask: seq<bool>, env: Env)
      requires |mask| == 2 && Running()
      modifies this`drawn, this`inflight, this`scaleInflight, this`stale, this`aDeferred, this`bDeferred,
               this`trapArmed,
               this`job, this`bjob, this`eng, this`frameFinished
      ensures Grown()
      ensures Running() && eng == [Caught(mask[0], Due(), old(eng[0])), Caught(mask[1], Due(), old(eng[1]))]
      ensures frameFinished == old(frameFinished) && trapArmed == old(trapArmed)
      ensures aDeferred == old(aDeferred) && bDeferred == old(bDeferred)
      ensures if old(Behind(mask)) then Settled() else inflight == old(inflight) && stale == old(stale)
      ensures old(TrapFits()) ==> TrapFits()
    {
      var a, b := DueRange(mask[0], 0), DueRange(mask[1], 1);
      if !a.Has() && !b.Has() {
        assert eng == [eng[0], eng[1]];
        return;
      }
      assert Due() < SCREEN_H && !frameFinished;
      DrawDue(a, b, env);
    }

    /** The asked engines draw each line at its own HBlank from here on. */
    method GoPerLine(mask: seq<bool>, burst: bool)
      requires |mask| == 2 && Running()
      requires (mask[0] ==> eng[0].next == Due()) && (mask[1] ==> eng[1].next == Due()) && (frameFinished ==> aDeferred)
      requires burst && (mask[0] || mask[1]) ==> lazyFrame
      modifies this`eng, this`trapArmed, this`trap
      ensures Running() && TrapFits()
      ensures eng == [PerLine(mask[0], burst, old(eng[0])), PerLine(mask[1], burst, old(eng[1]))]
      ensures (!aDeferred ==> Covered()) && (mask[0] && mask[1] ==> Covered() == (aDeferred ==> lagFrame && !bDeferred))
    {
      eng := [PerLine(mask[0], burst, eng[0]), PerLine(mask[1], burst, eng[1])];
      ArmTrap();
      Cover();
    }

    /** A trap that fits guards what is in flight, but for a deferred batch it leaves out. */
    lemma Cover()
      requires Running() && TrapFits()
      ensures !aDeferred ==> Covered()
      ensures (lazyFrame ==> eng[0].perLine && eng[1].perLine) ==> Covered() == (aDeferred ==> lagFrame && !bDeferred)
    {
    }

    /** Nothing on a worker: exactly the lines before each engine's next are drawn. */
    lemma AllDrawn()
      requires Running() && Settled()
      ensures drawn == [Upto(eng[0].next), Upto(eng[1].next)]
    {
      assert drawn == [drawn[0], drawn[1]];
    }

    /** `join_worker` between events: nothing is left on a worker; a finished frame's trap goes. */
    method Join()
      requires Running()
      modifies this`drawn, this`inflight, this`scaleInflight, this`stale, this`aDeferred, this`bDeferred, this`trapArmed
      ensures Grown()
      ensures Running() && Settled()
      ensures trapArmed == (old(trapArmed) && !frameFinished)
    {
      JoinWorker();
    }

    /** `fall_back_per_line`. A deferred batch in flight stays guarded exactly when it is engine A's
        alone in a lag frame; otherwise re-arming lifts the trap over it. */
    method FallBack(mask: seq<bool>, env: Env)
      requires |mask| == 2 && Valid() && trapArmed
      modifies this`drawn, this`inflight, this`scaleInflight, this`stale, this`aDeferred, this`bDeferred,
               this`trapArmed,
               this`trap, this`job, this`bjob, this`eng, this`frameFinished
      ensures Grown()
      ensures Valid()
      ensures eng == [ PerLine(mask[0], false, Caught(mask[0], Due(), old(eng[0]))),
                       PerLine(mask[1], false, Caught(mask[1], Due(), old(eng[1]))) ]
      ensures aDeferred == old(aDeferred) && bDeferred == old(bDeferred) && (inflight == old(inflight) || Settled())
      ensures !old(aDeferred) ==> Covered()
      ensures mask[0] && mask[1] ==> Covered() == old(aDeferred ==> lagFrame && !bDeferred)
      ensures stale ==> old(stale)
    {
      CatchUp(mask, env);
      GoPerLine(mask, false);
    }

    /** `vram_remap_begin` and `vram_remap_end`. When the trap covers, in the new map, every bank
        the lines in flight read (`covered`), they stay there, reading the map as it was; the
        lines due are drawn all the same. Otherwise nothing is left on a worker, and the trap is
        back as it was. */
    method Remap(covered: bool, env: Env)
      requires Valid()
      modifies this`drawn, this`inflight, this`scaleInflight, this`stale, this`aDeferred, this`bDeferred,
               this`trapArmed,
               this`trap, this`job, this`bjob, this`eng, this`frameFinished
      ensures Grown()
      ensures Valid() && (old(Covered()) ==> Covered())
      ensures eng == [Caught(true, Due(), old(eng[0])), Caught(true, Due(), old(eng[1]))]
      ensures if covered && old(InFlight() && trapArmed && !Behind([true, true]))
              then stale && inflight == old(inflight) else Settled()
    {
      if covered && InFlight() && trapArmed {
        RemapUnder(env);
      } else {
        RemapJoined(env);
      }
    }

    /** A remap with nothing left in flight. */
    method RemapJoined(env: Env)
      requires Valid()
      modifies this`drawn, this`inflight, this`scaleInflight, this`stale, this`aDeferred, this`bDeferred,
               this`trapArmed,
               this`trap, this`job, this`bjob, this`eng, this`frameFinished
      ensures Grown()
      ensures Valid() && Settled()
      ensures eng == [Caught(true, Due(), old(eng[0])), Caught(true, Due(), old(eng[1]))]
    {
      CatchUp([true, true], env);
      Join();
      Rearm();
    }

    /** A remap under the lines in flight. */
    method RemapUnder(env: Env)
      requires Valid() && InFlight()
      modifies this`drawn, this`inflight, this`scaleInflight, this`stale, this`aDeferred, this`bDeferred,
               this`trapArmed,
               this`job, this`bjob, this`eng, this`frameFinished
      ensures Grown()
      ensures Valid() && (old(Covered()) ==> Covered())
      ensures eng == [Caught(true, Due(), old(eng[0])), Caught(true, Due(), old(eng[1]))]
      ensures if old(Behind([true, true])) then Settled() else stale && inflight == old(inflight)
    {
      MarkStale();
      CatchUp([true, true], env);
    }

    method MarkStale()
      requires Valid() && InFlight()
      modifies this`stale
      ensures Valid() && stale
    {
      stale := true;
    }

    /** The trap lifted for the remap and put back. */
    method Rearm()
      requires Running() && Settled() && (if frameFinished then !trapArmed else TrapFits())
      modifies this`trapArmed, this`trap
      ensures Valid()
    {
      var was := trapArmed;
      if was {
        DisarmTrap();
        ArmTrap();
      }
    }

    /** No hit engine has lines on a worker. */
    ghost predicate Clear(hit: seq<bool>)
      requires |hit| == 2 && Shape()
      reads this
    {
      !(hit[0] && inflight[0]) && !(hit[1] && inflight[1])
    }

    /** Between events every line on a worker is guarded, bar a deferred batch. */
    lemma Guarded()
      requires Valid() && !aDeferred
      ensures Covered()
    {
    }

    /** A store waits for lines on a worker that it could change. */
    method JoinHit(hit: seq<bool>) returns (joined: bool)
      requires |hit| == 2 && Valid() && !frameFinished
      modifies this`drawn, this`inflight, this`scaleInflight, this`stale, this`aDeferred, this`bDeferred, this`trapArmed
      ensures Grown()
      ensures Valid() && Clear(hit) && joined == !old(Clear(hit)) && (joined ==> Settled())
      ensures trapArmed == old(trapArmed) && (stale ==> old(stale))
    {
      joined := (hit[0] && inflight[0]) || (hit[1] && inflight[1]);
      if joined {
        Join();
      }
    }

    /** The lag budgets charged with one store: joins first, and stores only while joins are
        within theirs. */
    method ChargeLag(joined: bool) returns (over: bool)
      modifies this`lagHits, this`lagStores
      ensures lagHits == old(lagHits) + (if joined then 1 else 0)
      ensures lagStores == old(lagStores) + (if joined && lagHits >= LAG_TRAP_LIMIT then 0 else 1)
      ensures over ==
        ((joined && lagHits >= LAG_TRAP_LIMIT) || (lagStores >= LAG_STORE_LIMIT && lagStores > old(lagStores)))
    {
      over := false;
      if joined {
        lagHits := lagHits + 1;
        over := lagHits >= LAG_TRAP_LIMIT;
      }
      if !over {
        lagStores := lagStores + 1;
        over := lagStores >= LAG_STORE_LIMIT;
      }
    }

    /** `vram_store_trap` when every engine the store reaches draws per line: it waits for a lag
        line it could change, and past either limit the frame's lag is dropped. */
    method StoreInLag(hit: seq<bool>)
      requires |hit| == 2 && Valid() && trapArmed && !aDeferred
      modifies this`drawn, this`inflight, this`scaleInflight, this`stale, this`aDeferred, this`bDeferred,
               this`trapArmed,
               this`trap, this`lagHits, this`lagStores, this`lagFrame
      ensures Grown()
      ensures Valid() && !aDeferred && Clear(hit) && (old(lagFrame) && !lagFrame ==> Settled())
      ensures (stale ==> old(stale))
    {
      var joined := JoinHit(hit);
      var over := ChargeLag(joined);
      if over && lagFrame {
        DropLag(joined);
      }
    }

    /** Lag dropped for the rest of the frame: nothing stays in flight once the trap is gone. */
    method DropLag(joined: bool)
      requires Valid() && !aDeferred && !frameFinished && (joined ==> Settled())
      modifies this`drawn, this`inflight, this`scaleInflight, this`stale, this`aDeferred, this`bDeferred,
               this`trapArmed,
               this`trap, this`lagFrame
      ensures Grown()
      ensures Valid() && Settled() && !lagFrame
    {
      if !joined {
        Join();
      }
      lagFrame := false;
      ArmTrap();
    }

    /** The engines in `burst` draw what is due and go per line for a burst. */
    method Burst(burst: seq<bool>, env: Env)
      requires |burst| == 2 && Valid() && !frameFinished && (burst[0] || burst[1] ==> lazyFrame)
      modifies this`drawn, this`inflight, this`scaleInflight, this`stale, this`aDeferred, this`bDeferred,
               this`trapArmed,
               this`trap, this`job, this`bjob, this`eng, this`frameFinished
      ensures Grown()
      ensures Valid() && !frameFinished && (inflight == old(inflight) || Settled()) && (stale ==> old(stale))
      ensures eng == [ PerLine(burst[0], true, Caught(burst[0], Due(), old(eng[0]))),
                       PerLine(burst[1], true, Caught(burst[1], Due(), old(eng[1]))) ]
    {
      CatchUp(burst, env);
      GoPerLine(burst, true);
    }

    /** `vram_store_trap` reaching a batching engine: the engines within their budget draw what
        is due and go per line for a burst; with none, every engine hit falls back. */
    method StoreInBatch(hit: seq<bool>, env: Env)
      requires |hit| == 2 && Valid() && trapArmed && !aDeferred
      modifies this`drawn, this`inflight, this`scaleInflight, this`stale, this`aDeferred, this`bDeferred,
               this`trapArmed,
               this`trap, this`job, this`bjob, this`eng, this`frameFinished
      ensures Grown()
      ensures Valid() && !aDeferred && Clear(hit) && eng == Stored(old(eng), hit, Due()) && (stale ==> old(stale))
    {
      var _ := JoinHit(hit);
      Spend(hit, env);
    }

    /** The burst budgets charged, and the engines caught up accordingly. */
    method Spend(hit: seq<bool>, env: Env)
      requires |hit| == 2 && Valid() && trapArmed && !frameFinished
      modifies this`drawn, this`inflight, this`scaleInflight, this`stale, this`aDeferred, this`bDeferred,
               this`trapArmed,
               this`trap, this`job, this`bjob, this`eng, this`frameFinished
      ensures Grown()
      ensures Valid() && !aDeferred && (inflight == old(inflight) || Settled()) && (stale ==> old(stale))
      ensures eng == Stored(old(eng), hit, Due())
    {
      var burst := BurstMask(eng, hit);
      eng := [Charged(hit[0], eng[0]), Charged(hit[1], eng[1])];
      if burst[0] || burst[1] {
        Burst(burst, env);
      } else {
        FallBack(hit, env);
      }
    }

    /** The engines a store can change: those its address reaches, both while something in flight
        reads a map that is no longer the live one. */
    function Hit(reach: seq<bool>): (hit: seq<bool>)
      requires |reach| == 2
      reads this
      ensures |hit| == 2
    {
      if stale then [true, true] else reach
    }

    /** `vram_store_trap`, called before a store lands. */
    method Store(reach: seq<bool>, env: Env)
      requires |reach| == 2 && Valid()
      modifies this`drawn, this`inflight, this`scaleInflight, this`stale, this`aDeferred, this`bDeferred,
               this`trapArmed,
               this`trap, this`job, this`bjob, this`eng, this`frameFinished, this`lagHits, this`lagStores, this`lagFrame
      ensures Grown()
      ensures Valid() && (old(Covered()) ==> Covered()) && (old(trapArmed) ==> Clear(old(Hit(reach))))
      ensures (stale ==> old(stale))
      ensures eng == if old(Batched(reach)) then Stored(old(eng), old(Hit(reach)), Due()) else old(eng)
      ensures old(Batched(reach)) ==> lagFrame == old(lagFrame)
    {
      if trapArmed {
        StoreHit(Hit(reach), env);
      }
    }

    /** A trapped store reaching a batching engine of a frame still being drawn. */
    predicate Batched(reach: seq<bool>)
      requires |reach| == 2 && |eng| == 2
      reads this
    {
      trapArmed && !aDeferred && Batching(eng, Hit(reach))
    }

    /** A trapped store that can change what the engines in `hit` draw: none of them is left on
        a worker. */
    method StoreHit(hit: seq<bool>, env: Env)
      requires |hit| == 2 && Valid() && trapArmed
      modifies this`drawn, this`inflight, this`scaleInflight, this`stale, this`aDeferred, this`bDeferred,
               this`trapArmed,
               this`trap, this`job, this`bjob, this`eng, this`frameFinished, this`lagHits, this`lagStores, this`lagFrame
      ensures Grown()
      ensures Valid() && (old(Covered()) ==> Covered()) && Clear(hit) && (stale ==> old(stale))
      ensures eng == if old(!aDeferred && Batching(eng, hit)) then Stored(old(eng), hit, Due()) else old(eng)
      ensures old(!aDeferred && Batching(eng, hit)) ==> lagFrame == old(lagFrame)
    {
      if aDeferred {
        if hit[0] || (bDeferred && hit[1]) {
          Join();
        }
      } else if (eng[0].perLine || !hit[0]) && (eng[1].perLine || !hit[1]) {
        StoreInLag(hit);
      } else {
        StoreInBatch(hit, env);
      }
    }

    /** Before a trapped store lands, an engine it can change has drawn every line below the
        frontier, unless the budget check overtakes it: then it batches on. */
    lemma StoreLands(reach: seq<bool>, e: nat)
      requires |reach| == 2 && e < 2 && Valid() && trapArmed && Hit(reach)[e]
      ensures if Batched(reach) && !eng[e].perLine then Landed(eng, Hit(reach), Due(), e) else eng[e].next == Due()
    {
      if Batched(reach) && !eng[e].perLine {
        StoredLands(eng, Hit(reach), Due(), e);
      }
    }

    /** A store that overtakes an engine it can change: the engine goes on batching, its lines below
        the frontier not drawn before the store lands. */
    method OvertakenStore(reach: seq<bool>, e: nat, env: Env)
      requires |reach| == 2 && e < 2 && Valid() && trapArmed && !aDeferred && Overtaken(eng, Hit(reach), e)
      modifies this`drawn, this`inflight, this`scaleInflight, this`stale, this`aDeferred, this`bDeferred,
               this`trapArmed,
               this`trap, this`job, this`bjob, this`eng, this`frameFinished, this`lagHits, this`lagStores, this`lagFrame
      ensures Grown()
      ensures Valid() && eng[e] == old(eng[e]).(bursts := old(eng[e]).bursts + 1)
    {
      StoredLands(eng, Hit(reach), Due(), e);
      Store(reach, env);
    }

    /** Engine e, which a store can change, has drawn every line below the frontier, unless it was
        overtaken. */
    ghost predicate Spared(hit: bool, overtaken: bool, e: nat)
      requires e < 2 && |drawn| == 2
      reads this
    {
      hit && !overtaken ==> |drawn[e]| == Due()
    }

    /** A trapped store has all of what it can change drawn before it lands. */
    method LandTrapped(reach: seq<bool>, env: Env, ghost was: seq<Eng>, ghost hit: seq<bool>, ghost batched: bool)
      requires |reach| == |was| == |hit| == 2 && Valid() && trapArmed
      requires was == eng && hit == Hit(reach) && batched == Batched(reach)
      requires Lands(was, hit, Due(), batched, 0) && Lands(was, hit, Due(), batched, 1)
      modifies this`drawn, this`inflight, this`scaleInflight, this`stale, this`aDeferred, this`bDeferred,
               this`trapArmed,
               this`trap, this`job, this`bjob, this`eng, this`frameFinished, this`lagHits, this`lagStores, this`lagFrame
      ensures Valid() && (old(Covered()) ==> Covered()) && Grown() && (stale ==> old(stale))
      ensures Spared(hit[0], batched && Overtaken(was, hit, 0), 0)
      ensures Spared(hit[1], batched && Overtaken(was, hit, 1), 1)
    {
      Store(reach, env);
      BothSpared(was, hit, batched);
    }

    lemma BothLand(reach: seq<bool>)
      requires |reach| == 2 && Valid() && trapArmed
      ensures Lands(eng, Hit(reach), Due(), Batched(reach), 0) && Lands(eng, Hit(reach), Due(), Batched(reach), 1)
    {
      DrawnTo(0);
      DrawnTo(1);
      if Hit(reach)[0] { StoreLands(reach, 0); }
      if Hit(reach)[1] { StoreLands(reach, 1); }
    }

    lemma BothSpared(was: seq<Eng>, hit: seq<bool>, batched: bool)
      requires Valid() && |was| == |hit| == 2 && Clear(hit)
      requires Lands(was, hit, Due(), batched, 0) && Lands(was, hit, Due(), batched, 1)
      requires eng == if batched then Stored(was, hit, Due()) else was
      ensures Spared(hit[0], batched && Overtaken(was, hit, 0), 0)
      ensures Spared(hit[1], batched && Overtaken(was, hit, 1), 1)
    {
      Landing(was, hit, batched, 0);
      Landing(was, hit, batched, 1);
    }

    lemma Landing(was: seq<Eng>, hit: seq<bool>, batched: bool, e: nat)
      requires Valid() && |was| == |hit| == 2 && e < 2 && Clear(hit) && Lands(was, hit, Due(), batched, e)
      requires eng == if batched then Stored(was, hit, Due()) else was
      ensures Spared(hit[e], batched && Overtaken(was, hit, e), e)
    {
      DrawnTo(e);
      if hit[e] && !(batched && Overtaken(was, hit, e)) {
        Reached(was, eng, hit, Due(), batched, e);
      }
    }

    /** Whether a store to an engine's windows is trapped. */
    predicate Trapping(toB: bool)
      requires |trap| == 2
      reads this
    {
      trapArmed && trap[if toB then 1 else 0]
    }

    /** What lets a store through to lines of engine e: the trap was lifted over a deferred batch, the
        burst budgets overtake e, or a map is stale and the trap leaves the window out. */
    ghost predicate Excuse(toB: bool, e: nat)
      requires |trap| == |eng| == 2 && e < 2
      reads this
    {
      || lifted
      || (Trapping(toB) && Batched(To(toB)) && Overtaken(eng, Hit(To(toB)), e))
      || (!Trapping(toB) && stale && e != if toB then 1 else 0)
    }

    /** A store to an engine's windows, up to where it lands: every engine it can change has drawn
        every line below the frontier, unless it is excused. */
    method StoreTo(toB: bool, env: Env)
      requires Valid() && Guard()
      modifies this`drawn, this`inflight, this`scaleInflight, this`stale, this`aDeferred, this`bDeferred,
               this`trapArmed,
               this`trap, this`job, this`bjob, this`eng, this`frameFinished, this`lagHits, this`lagStores, this`lagFrame
      ensures Valid() && Guard() && Grown() && (stale ==> old(stale)) && |drawn[0]| <= Due() && |drawn[1]| <= Due()
      ensures Spared(old(Hit(To(toB)))[0], old(Excuse(toB, 0)), 0)
      ensures Spared(old(Hit(To(toB)))[1], old(Excuse(toB, 1)), 1)
    {
      if Trapping(toB) {
        BothLand(To(toB));
        LandTrapped(To(toB), env, eng, Hit(To(toB)), Batched(To(toB)));
      } else if !lifted {
        Untrapped(if toB then 1 else 0);
      }
      BothDrawn();
    }

    /** Engine e's lines of this HBlank. */
    function HBlankRange(e: nat): Range
      requires e < 2 && |eng| == 2 && line < SCREEN_H
      reads this
    {
      LinesAt(lazyFrame, line, eng[e])
    }

    /** Between the drawing of a display line and the end of its HBlank. */
    ghost predicate LineDrawn()
      reads this
    {
      && Lines() && Jobs() && (inflight[1] ==> bDeferred) && (!frameFinished ==> TrapFits())
      && PaceTo(0, line + 1) && PaceTo(1, line + 1) && line < SCREEN_H && !hblankDone
      && forall f | f in frames :: Complete(f)
    }

    /** What an HBlank leaves in flight of engine A: its lines past the last one when they may be
        deferred, its line in a lag frame short of the last. */
    twostate predicate LeftInFlight(env: Env)
      requires old(|eng|) == 2 && old(|trap|) == 2 && old(line) < SCREEN_H && |inflight| == 2 && old(|inflight|) == 2
      reads this
    {
      var a, b := old(HBlankRange(0)), old(HBlankRange(1));
      if !a.Has() && !b.Has() then inflight == old(inflight) && stale == old(stale)
      else !stale && aDeferred == old(Deferrable(a, b, env)) && (old(Lags(a, b, env)) ==> inflight[0])
    }

    /** `on_hblank`, drawing a display line: past it, each engine has drawn to it or still
        batches, and past the last one the frame is over. */
    method DrawLine(env: Env)
      requires Valid() && !hblankDone && line < SCREEN_H
      modifies this`drawn, this`inflight, this`scaleInflight, this`stale, this`aDeferred, this`bDeferred,
               this`trapArmed,
               this`job, this`bjob, this`eng, this`frameFinished
      ensures Grown()
      ensures LineDrawn() && Covered() && LeftInFlight(env)
      ensures eng == [old(After(0, HBlankRange(0))), old(After(1, HBlankRange(1)))]
      ensures (eng[0].burst ==> eng[0].burstLeft > 0) && (eng[1].burst ==> eng[1].burstLeft > 0)
    {
      RenderRanges(HBlankRange(0), HBlankRange(1), env);
    }

    /** The end of engine e's burst window, if this line is its last. */
    method TickBurst(e: nat)
      requires e < 2 && LineDrawn() && (eng[e].burst ==> eng[e].burstLeft > 0)
      modifies this`eng, this`trapArmed, this`trap
      ensures LineDrawn() && eng == old(eng)[e := Ticked(line, old(eng)[e])]
      ensures frameFinished ==> trapArmed == old(trapArmed) && trap == old(trap)
    {
      if eng[e].burst {
        if eng[e].burstLeft == 1 && line < SCREEN_H - 1 {
          EndBurst(e);
        } else {
          eng := eng[e := eng[e].(burstLeft := eng[e].burstLeft - 1)];
        }
      }
    }

    /** The lines after a burst's last one batch again, trapped. */
    method EndBurst(e: nat)
      requires e < 2 && LineDrawn() && eng[e].burst && line < SCREEN_H - 1
      modifies this`eng, this`trapArmed, this`trap
      ensures LineDrawn()
      ensures eng == old(eng)[e := old(eng)[e].(burst := false, burstLeft := 0, perLine := false, next := line + 1)]
    {
      eng := eng[e := eng[e].(burst := false, burstLeft := 0, perLine := false, next := line + 1)];
      ArmTrap();
    }

    /** Both engines' bursts. */
    method TickBursts()
      requires LineDrawn() && Covered()
      requires (eng[0].burst ==> eng[0].burstLeft > 0) && (eng[1].burst ==> eng[1].burstLeft > 0)
      modifies this`eng, this`trapArmed, this`trap
      ensures LineDrawn() && Covered() && eng == [Ticked(line, old(eng)[0]), Ticked(line, old(eng)[1])]
    {
      TickBurst(0);
      TickBurst(1);
    }

    /** A display line drawn and the bursts it ends. */
    method DrawAndTick(env: Env)
      requires Valid() && !hblankDone && line < SCREEN_H
      modifies this`drawn, this`inflight, this`scaleInflight, this`stale, this`aDeferred, this`bDeferred,
               this`trapArmed,
               this`trap, this`job, this`bjob, this`eng, this`frameFinished
      ensures Grown()
      ensures LineDrawn() && Covered() && LeftInFlight(env)
      ensures eng == [Stepped(lazyFrame, line, old(eng[0])), Stepped(lazyFrame, line, old(eng[1]))]
    {
      DrawLine(env);
      TickBursts();
    }

    /** `on_hblank` at a display line. */
    method OnDisplayHBlank(env: Env)
      requires Valid() && !hblankDone && line < SCREEN_H
      modifies this`drawn, this`inflight, this`scaleInflight, this`stale, this`aDeferred, this`bDeferred,
               this`trapArmed,
               this`trap, this`job, this`bjob, this`eng, this`frameFinished, this`hblankDone
      ensures Grown()
      ensures Valid() && hblankDone && Covered() && LeftInFlight(env)
      ensures eng == [Stepped(lazyFrame, line, old(eng[0])), Stepped(lazyFrame, line, old(eng[1]))]
    {
      DrawAndTick(env);
      MarkDone();
    }

    method MarkDone()
      requires LineDrawn()
      modifies this`hblankDone
      ensures Valid() && hblankDone
    {
      hblankDone := true;
    }

    /** `on_hblank`: past the last display line's, both engines have drawn all of theirs. */
    method OnHBlank(env: Env)
      requires Valid() && !hblankDone
      modifies this`drawn, this`inflight, this`scaleInflight, this`stale, this`aDeferred, this`bDeferred,
               this`trapArmed,
               this`trap, this`job, this`bjob, this`eng, this`frameFinished, this`hblankDone
      ensures Grown()
      ensures Valid() && hblankDone && (old(Covered()) ==> Covered())
      ensures line + 1 >= SCREEN_H ==> frameFinished && eng[0].next == eng[1].next == SCREEN_H
      ensures (line < SCREEN_H ==> LeftInFlight(env)) && (stale ==> old(stale))
      ensures line < SCREEN_H ==> eng == [Stepped(lazyFrame, line, old(eng[0])), Stepped(lazyFrame, line, old(eng[1]))]
    {
      if line < SCREEN_H {
        OnDisplayHBlank(env);
      } else {
        hblankDone := true;
      }
    }

    /** `begin_frame` up to its trap, with whether the frame may batch and whether it may lag. */
    method Restart(lazyOn: bool, lagOn: bool)
      requires Shape() && eng[0].probeIn > 0 && eng[1].probeIn > 0
      modifies this`eng, this`frameFinished, this`lazyFrame, this`lazyTried, this`lagFrame, this`lagHits,
               this`lagStores, this`drawn
      ensures eng == [Restarted(old(lazyTried), lazyOn, old(eng[0])), Restarted(old(lazyTried), lazyOn, old(eng[1]))]
      ensures !frameFinished && lazyTried == lazyOn && lazyFrame == (lazyOn && !(eng[0].perLine && eng[1].perLine))
      ensures lagFrame == lagOn && lagHits == lagStores == 0 && drawn == [[], []]
    {
      frameFinished := false;
      eng := [Restarted(lazyTried, lazyOn, eng[0]), Restarted(lazyTried, lazyOn, eng[1])];
      lazyFrame := lazyOn && !(eng[0].perLine && eng[1].perLine);
      lazyTried := lazyOn;
      lagFrame, lagHits, lagStores := lagOn, 0, 0;
      drawn := [[], []];
    }

    /** Nothing of the frame drawn, nothing on a worker. */
    ghost predicate Blank()
      reads this
    {
      && Shape() && Settled() && drawn == [[], []] && !frameFinished && line == 0 && !hblankDone
      && eng[0].next == 0 && eng[1].next == 0 && !eng[0].burst && !eng[1].burst
      && eng[0].probeIn > 0 && eng[1].probeIn > 0
      && forall f | f in frames :: Complete(f)
    }

    /** `begin_frame` from its trap. */
    method StartFrame()
      requires Blank()
      modifies this`eng, this`trapArmed, this`trap
      ensures Valid() && Settled() && eng == [Opened(lazyFrame, old(eng[0])), Opened(lazyFrame, old(eng[1]))]
    {
      ArmTrap();
      if !lazyFrame {
        eng := [eng[0].(perLine := true), eng[1].(perLine := true)];
      }
      assert eng == [eng[0], eng[1]];
    }

    /** The frame that follows `before` and, when it was `tried`, ended with its engines there:
        it batches unless both of them are futile. */
    predicate Begun(tried: bool, before: seq<Eng>, lazyOn: bool, lagOn: bool)
      requires |before| == 2 && before[0].probeIn > 0 && before[1].probeIn > 0
      reads this
    {
      var a, b := Restarted(tried, lazyOn, before[0]), Restarted(tried, lazyOn, before[1]);
      && lazyFrame == (lazyOn && !(a.perLine && b.perLine)) && lazyTried == lazyOn && lagFrame == lagOn
      && eng == [Opened(lazyFrame, a), Opened(lazyFrame, b)]
    }

    /** `begin_frame`. */
    method BeginFrame(lazyOn: bool, lagOn: bool)
      requires Shape() && Settled() && line == 0 && !hblankDone && eng[0].probeIn > 0 && eng[1].probeIn > 0
      requires forall f | f in frames :: Complete(f)
      modifies this`eng, this`frameFinished, this`lazyFrame, this`lazyTried, this`lagFrame, this`lagHits,
               this`lagStores,
               this`trapArmed, this`trap, this`drawn
      ensures Valid() && Settled() && Begun(old(lazyTried), old(eng), lazyOn, lagOn)
    {
      Restart(lazyOn, lagOn);
      StartFrame();
    }

    /** `on_scanline_start` at line 0: the frame before is joined and was drawn in full. */
    method EndFrame()
      requires Valid() && hblankDone && line + 1 == LINES
      modifies this`drawn, this`inflight, this`scaleInflight, this`stale, this`aDeferred, this`bDeferred,
               this`trapArmed, this`frames
      ensures Shape() && Settled() && frames == old(frames) + [drawn] && Complete(drawn) && eng[0].probeIn > 0
      ensures eng[1].probeIn > 0
      ensures forall f | f in frames :: Complete(f)
    {
      Join();
      AllDrawn();
      frames := frames + [drawn];
    }

    /** `on_scanline_start` at line 0. */
    method NextFrame(lazyOn: bool, lagOn: bool)
      requires Valid() && hblankDone && line + 1 == LINES
      modifies this
      ensures Valid() && Settled() && !hblankDone && line == 0 && !lifted
      ensures frames == old(frames) + [[Upto(SCREEN_H), Upto(SCREEN_H)]]
      ensures Begun(old(lazyTried), old(eng), lazyOn, lagOn)
    {
      EndFrame();
      StartOver(lazyOn, lagOn);
    }

    /** The next frame, after one that was joined and recorded. */
    method StartOver(lazyOn: bool, lagOn: bool)
      requires Shape() && Settled() && eng[0].probeIn > 0 && eng[1].probeIn > 0
      requires forall f | f in frames :: Complete(f)
      modifies this
      ensures Valid() && Settled() && !hblankDone && line == 0 && !lifted
      ensures frames == old(frames) && Begun(old(lazyTried), old(eng), lazyOn, lagOn)
    {
      line, hblankDone, lifted := 0, false, false;
      BeginFrame(lazyOn, lagOn);
    }

    /** `on_scanline_start`: at line 0 the frame before is recorded, drawn in full, and the next
        one begins; at any other line the frame goes on as it was. */
    method OnScanlineStart(lazyOn: bool, lagOn: bool)
      requires Valid() && hblankDone
      modifies this
      ensures Valid() && !hblankDone
      ensures line == (old(line) + 1) % LINES && Clock() == old(Clock()) + 1
      ensures line == 0 ==> Settled() && !lifted && frames == old(frames) + [[Upto(SCREEN_H), Upto(SCREEN_H)]]
      ensures line == 0 ==> Begun(old(lazyTried), old(eng), lazyOn, lagOn)
      ensures line != 0 ==> unchanged(`eng, `drawn, `frames, `inflight, `stale, `lazyFrame, `lagFrame, `lifted)
      ensures line != 0 ==> unchanged(`trapArmed, `trap, `aDeferred, `bDeferred, `frameFinished)
    {
      if line + 1 == LINES {
        NextFrame(lazyOn, lagOn);
      } else {
        NextLine();
      }
    }

    method NextLine()
      requires Valid() && hblankDone && line + 1 < LINES
      modifies this`line, this`hblankDone
      ensures Valid() && !hblankDone && line == old(line) + 1
    {
      line := line + 1;
      hblankDone := false;
    }

    /** Engine A switching to VRAM display under a trap, which does not cover the bank it then
        shows: the rest of the frame is drawn per line. */
    method ShowBank(env: Env)
      requires Valid()
      modifies this`drawn, this`inflight, this`scaleInflight, this`stale, this`aDeferred, this`bDeferred,
               this`trapArmed,
               this`trap, this`job, this`bjob, this`eng, this`frameFinished, this`lifted
      ensures Grown()
      ensures Valid() && lifted == (old(lifted) || old(Lifts()))
      ensures if old(Lifts()) then !Covered() else old(Covered()) ==> Covered()
    {
      if trapArmed {
        lifted := lifted || Lifts();
        FallBack([true, true], env);
      }
    }

    /** Falling back now would lift the trap over a deferred batch: it stays over engine A's
        windows in a lag frame, and over engine B's not at all. */
    predicate Lifts()
      reads this
    {
      trapArmed && aDeferred && !(lagFrame && !bDeferred)
    }

    /** Lines on a worker are under the trap, unless a fall back of this frame has lifted it. */
    ghost predicate Guard()
      requires Shape()
      reads this
    {
      !lifted ==> Covered()
    }

    /** The end of a line's display, or of its HBlank. */
    method Tick(env: Env, lazyOn: bool, lagOn: bool)
      requires Valid() && Guard()
      modifies this
      ensures Valid() && Guard() && (lifted ==> old(lifted)) && Clock() == old(Clock()) + 1
    {
      if hblankDone {
        OnScanlineStart(lazyOn, lagOn);
      } else {
        OnHBlank(env);
      }
    }

    /** A store, a remap, or engine A switching to VRAM display. */
    method Between(ev: Event)
      requires Valid() && Guard() && !ev.Tick?
      modifies this`drawn, this`inflight, this`scaleInflight, this`stale, this`aDeferred, this`bDeferred,
               this`trapArmed,
               this`trap, this`job, this`bjob, this`eng, this`frameFinished, this`lagHits, this`lagStores,
               this`lagFrame, this`lifted
      ensures Grown()
      ensures Valid() && Guard() && (lifted && !old(lifted) ==> ev.DisplayBank? && old(Lifts()))
    {
      match ev
      case Trapped(reachA, reachB, env) => Store([reachA, reachB], env);
      case MapSwitch(covered, env) => Remap(covered, env);
      case DisplayBank(env) => ShowBank(env);
    }

    /** One event: HBlanks and scanline starts in turn, and the others between them. */
    method Step(ev: Event)
      requires Valid() && Guard()
      modifies this
      ensures Valid() && Guard() && (lifted && !old(lifted) ==> ev.DisplayBank? && old(Lifts()))
      ensures Clock() == old(Clock()) + if ev.Tick? then 1 else 0
    {
      if ev.Tick? {
        Tick(ev.env, ev.lazyOn, ev.lagOn);
      } else {
        Between(ev);
      }
    }

    /** A run of events. Every frame that ends has drawn each engine's lines 0 .. 191 in order
        and once, one for every 526 ticks, and lines on a worker stay under the trap, unless in
        this frame a switch to VRAM display has lifted it over a deferred batch. */
    method Run(events: seq<Event>)
      requires Valid() && Guard()
      modifies this
      ensures Valid() && Guard() && Clock() == old(Clock()) + Ticks(events)
    {
      var i := 0;
      while i < |events|
        invariant i <= |events| && Valid() && Guard()
        invariant Clock() + Ticks(events[i..]) == old(Clock()) + Ticks(events)
      {
        Step(events[i]);
        i := i + 1;
      }
    }

    /** A display line before the last. */
    method OneLine(env: Env)
      requires Valid() && !hblankDone && line + 1 < SCREEN_H
      modifies this
      ensures Valid() && !hblankDone && line == old(line) + 1 && unchanged(`lazyFrame, `lagFrame, `lifted)
      ensures (stale ==> old(stale))
      ensures eng == [Stepped(lazyFrame, old(line), old(eng[0])), Stepped(lazyFrame, old(line), old(eng[1]))]
      ensures lagFrame && !env.scaling && (lazyFrame ==> old(eng[0]).perLine) ==> inflight[0]
    {
      OnHBlank(env);
      OnScanlineStart(true, true);
    }

    /** One line of the two engines' bursts, `left` of them still to draw. */
    method BurstLine(ghost a: Eng, ghost b: Eng, ghost left: nat, env: Env)
      requires Valid() && !hblankDone && line + 1 < SCREEN_H && lazyFrame && 0 < left
      requires a.burst == a.perLine && b.burst == b.perLine && eng == [InBurst(a, line, left), InBurst(b, line, left)]
      modifies this
      ensures Valid() && !hblankDone && line == old(line) + 1 && unchanged(`lazyFrame, `lagFrame)
      ensures (stale ==> old(stale))
      ensures eng == [InBurst(a, line, left - 1), InBurst(b, line, left - 1)]
      ensures lagFrame && !env.scaling && a.burst ==> inflight[0]
    {
      StepsInBurst(a, line, left);
      StepsInBurst(b, line, left);
      OneLine(env);
    }

    /** Eight display lines, each engine in the middle of a batch or at the start of a burst: the
        bursts end, and in a lag frame engine A's leaves its last line in flight. */
    method EightLines(env: Env)
      requires Valid() && !hblankDone && line + BURST_LINES < SCREEN_H && lazyFrame
      requires AtBurst(eng[0], line) && AtBurst(eng[1], line)
      modifies this
      ensures Valid() && !hblankDone && line == old(line) + BURST_LINES && unchanged(`lazyFrame, `lagFrame)
      ensures eng == [InBurst(old(eng[0]), line, 0), InBurst(old(eng[1]), line, 0)]
      ensures stale ==> old(stale)
      ensures lagFrame && !env.scaling && old(eng[0]).burst ==> inflight[0]
    {
      ghost var a, b, l := eng[0], eng[1], line;
      assert eng == [a, b];
      var j := 0;
      while j < BURST_LINES
        invariant j <= BURST_LINES && Valid() && !hblankDone && line == l + j && unchanged(`lazyFrame, `lagFrame)
        invariant eng == [InBurst(a, l + j, BURST_LINES - j), InBurst(b, l + j, BURST_LINES - j)]
        invariant stale ==> old(stale)
        invariant 0 < j && lagFrame && !env.scaling && a.burst ==> inflight[0]
      {
        BurstLine(a, b, BURST_LINES - j, env);
        j := j + 1;
      }
    }

    /** The last display line of a frame engine A has batched: its lines stay in flight past it. */
    method LastLine(env: Env)
      requires Valid() && !hblankDone && line == SCREEN_H - 1
      requires lazyFrame && !eng[0].perLine && eng[0].next + HAND_OFF_MIN <= SCREEN_H
      modifies this`drawn, this`inflight, this`scaleInflight, this`stale, this`aDeferred, this`bDeferred,
               this`trapArmed,
               this`trap, this`job, this`bjob, this`eng, this`frameFinished, this`hblankDone
      ensures Grown()
      ensures Valid() && aDeferred && trapArmed
    {
      OnHBlank(env);
    }
  }

  /** A batching engine, its next line and the bursts of this frame it has spent. */
  function Batcher(next: nat, bursts: nat): Eng
  {
    Eng(false, next, false, 0, bursts, 0, PROBE_PERIOD)
  }

  /** The same engine in a burst. */
  function Burster(next: nat, bursts: nat): Eng
  {
    Eng(true, next, true, BURST_LINES, bursts, 0, PROBE_PERIOD)
  }

  /** A parked worker, none for engine B, an output that is not scaled. */
  const QUIET := Env(true, false, false)

  /** A store to engine B's windows between the bursts of a frame: it takes engine B into another. */
  lemma StoreToB(a: Eng, n: nat, k: nat)
    requires k + 1 < BURST_LIMIT
    ensures Stored([a, Batcher(n, k)], [false, true], n) == [a, Burster(n, k + 1)]
  {
    assert BurstMask([a, Batcher(n, k)], [false, true]) == [false, true];
  }

  lemma StoreToA(n: nat, k: nat, b: Eng)
    requires k + 1 < BURST_LIMIT
    ensures Stored([Batcher(0, k), b], [true, false], n) == [Burster(n, k + 1), b]
  {
    assert BurstMask([Batcher(0, k), b], [true, false]) == [true, false];
  }

  /** Line l of a frame that may batch and lag, nothing of it on a map that has changed. */
  ghost predicate AtLine(g: Gpu, l: nat)
    reads g
  {
    g.Valid() && !g.hblankDone && g.line == l && g.lazyFrame && g.lagFrame && !g.stale
  }

  /** A store to engine B's windows and the burst it leads to. */
  method OneBurst(g: Gpu, k: nat)
    requires k + 1 < BURST_LIMIT && AtLine(g, BURST_LINES * k) && g.eng == [Batcher(0, 0), Batcher(BURST_LINES * k, k)]
    modifies g
    ensures AtLine(g, BURST_LINES * (k + 1)) && g.eng == [Batcher(0, 0), Batcher(BURST_LINES * (k + 1), k + 1)]
  {
    StoreToB(Batcher(0, 0), BURST_LINES * k, k);
    g.Store([false, true], QUIET);
    g.EightLines(QUIET);
  }

  /** Engine B's fifteenth burst, and engine A's first beside it: its last line is in flight. */
  method LastBursts(g: Gpu)
    requires AtLine(g, 112) && g.eng == [Batcher(0, 0), Batcher(112, 14)]
    modifies g
    ensures AtLine(g, 120) && g.eng == [Batcher(120, 1), Batcher(120, 15)] && g.inflight[0]
  {
    StoreToB(Batcher(0, 0), 112, 14);
    g.Store([false, true], QUIET);
    StoreToA(112, 0, Burster(112, 15));
    g.Store([true, false], QUIET);
    g.EightLines(QUIET);
  }

  /** A remap under engine A's line in flight, and a line both engines batch. */
  method StaleLine(g: Gpu)
    requires AtLine(g, 120) && g.eng == [Batcher(120, 1), Batcher(120, 15)] && g.inflight[0]
    modifies g
    ensures g.Valid() && g.trapArmed && !g.aDeferred && g.stale
    ensures g.line == 120 && g.hblankDone && g.eng == [Batcher(120, 1), Batcher(120, 15)]
  {
    g.Remap(true, QUIET);
    g.OnHBlank(QUIET);
  }

  /** A run to where a store to engine B's windows overtakes engine B. Such stores take it through
      fifteen bursts, the last of them with one to engine A's windows beside it; a remap then goes
      by under engine A's line in flight, and both engines batch the next line. Now a store to
      either engine's windows is charged to both, and engine B has the line to draw and no burst
      left. */
  method OvertakenRun() returns (g: Gpu)
    ensures g.Valid() && g.trapArmed && !g.aDeferred
    ensures Overtaken(g.eng, g.Hit([false, true]), 1) && g.eng[1].next < g.Due()
  {
    g := new Gpu(true, true);
    var k := 0;
    while k < BURST_LIMIT - 2
      invariant k <= BURST_LIMIT - 2 && AtLine(g, BURST_LINES * k)
      invariant g.eng == [Batcher(0, 0), Batcher(BURST_LINES * k, k)]
    {
      OneBurst(g, k);
      k := k + 1;
    }
    LastBursts(g);
    StaleLine(g);
  }

  /** A run to a batch no trap guards: a frame without lag batched to its last line, whose lines
      stay in flight into VBlank, when engine A switches to VRAM display. */
  method UnguardedRun() returns (g: Gpu)
    ensures g.Valid() && !g.Covered()
  {
    g := new Gpu(true, false);
    while g.line < SCREEN_H - 1
      invariant g.Valid() && !g.hblankDone && g.line < SCREEN_H && g.lazyFrame && !g.lagFrame && !g.lifted
      invariant g.eng == [Batcher(0, 0), Batcher(0, 0)]
    {
      g.OneLine(QUIET);
    }
    g.LastLine(QUIET);
    g.ShowBank(QUIET);
  }
}
