/** `Engine2DRegs`' journal (src/core/gpu/engine2d_regs.cpp) and `Gpu::step_engine`: a fixed
    array, an append count and a replay position. */
module LazyRegs {
  import opened LazyJournal

  class Regs<S, W> {
    const en: Engine<S, W>
    const journal: array<Entry<W>>
    var jn: nat
    var jpos: nat
    var s: S
    ghost var drawn: seq<S>    // the state each line so far was drawn from

    ghost predicate Valid()
      reads this
    {
      jpos <= jn <= journal.Length && journal.Length > 0
    }

    ghost function Pending(): seq<Entry<W>>
      requires Valid()
      reads this, journal
    {
      journal[jpos .. jn]
    }

    ghost function Now(): Pair<S, W>
      requires Valid()
      reads this, journal
    {
      Pair(Side(s, drawn), Pending())
    }

    constructor (en: Engine<S, W>, journal: array<Entry<W>>, s: S)
      requires journal.Length > 0
      ensures Valid() && this.en == en && this.journal == journal && Now() == Pair(Side(s, []), [])
    {
      this.en, this.journal, this.s := en, journal, s;
      jn, jpos, drawn := 0, 0, [];
    }

    /** `replay_to`. */
    method ReplayTo(stamp: nat)
      requires Valid()
      modifies this`jpos, this`s
      ensures Valid() && Now() == ReplayPair(en, old(Now()), stamp)
    {
      ghost var j := Pending();
      while jpos < jn && journal[jpos].stamp <= stamp
        invariant Valid()
        invariant Replay(en, s, Pending(), stamp) == Replay(en, old(s), j, stamp)
        invariant Rest(Pending(), stamp) == Rest(j, stamp)
        decreases jn - jpos
      {
        assert Pending()[1..] == journal[jpos + 1 .. jn];
        var e := journal[jpos];
        jpos := jpos + 1;
        s := en.apply(s, e.w);
      }
    }

    /** `queue`, for a write that has a stamp: appended, or, on a full journal, everything
        pending applied first. */
    method Queue(stamp: nat, w: W)
      requires Valid() && Below(Pending(), NO_STAMP)
      modifies this`jn, this`jpos, this`s, journal
      ensures Valid()
      ensures old(jn) < journal.Length ==> Now() == Later(old(Now()), Entry(stamp, w))
      ensures old(jn) == journal.Length ==> Now() == Later(ReplayPair(en, old(Now()), NO_STAMP), Entry(stamp, w))
    {
      if jn == journal.Length {
        RestBelow(Pending(), NO_STAMP, NO_STAMP);
        ReplayTo(NO_STAMP);
        jn, jpos := 0, 0;
      }
      ghost var before := Pending();
      journal[jn] := Entry(stamp, w);
      jn := jn + 1;
      assert Pending() == before + [Entry(stamp, w)];
    }

    /** `frame_done`: false where the code aborts, an entry left unreplayed. */
    method FrameDone() returns (ok: bool)
      requires Valid()
      modifies this`jn, this`jpos
      ensures Valid() && ok == (old(Pending()) == [])
      ensures ok ==> Now() == old(Now())
      ensures ok ==> jn == 0
    {
      ok := jpos == jn;
      if ok {
        jn, jpos := 0, 0;
      }
    }

    /** `step_engine`: writes before the line, its window edges, its own writes, latches, the
        line, the latches after it. */
    method StepLine(line: nat)
      requires Valid()
      modifies this`jpos, this`s, this`drawn
      ensures Valid() && Now() == StepEngine(en, old(Now()), line)
    {
      ReplayTo(line * 2);
      s := en.windows(s, line);
      ReplayTo(line * 2 + 1);
      s := en.preDraw(s, line);
      drawn := drawn + [s];
      s := en.carry(s);
      s := en.postDraw(s);
    }

    /** A run of lines, drawn now or by a worker. */
    method StepRun(first: nat, last: nat)
      requires Valid() && first <= last
      modifies this`jpos, this`s, this`drawn
      ensures Valid() && Now() == StepLines(en, old(Now()), first, last)
    {
      var l := first;
      while l < last
        invariant Valid() && first <= l <= last
        invariant StepLines(en, Now(), l, last) == StepLines(en, old(Now()), first, last)
      {
        StepLine(l);
        l := l + 1;
      }
    }
  }
}
