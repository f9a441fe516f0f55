/** CP15's protection-unit registers and the cacheability map kept up to date behind them
    (src/core/cpu/cp15.cpp). */
module PuUnit {
  import opened PuMap

  ghost predicate Unlike(was: seq<nat>, now: seq<nat>, p: nat)
  {
    p < |was| && p < |now| && was[p] != now[p]
  }

  /** Every page that changed lies in exactly one of the ranges added, every other in none. */
  ghost predicate Exactly(before: seq<Span>, spans: seq<Span>, was: seq<nat>, now: seq<nat>)
  {
    forall p: nat | p < PAGES :: Count(spans, p) == Count(before, p) + if Unlike(was, now, p) then 1 else 0
  }

  /** Every page that changed lies in exactly one of the ranges added, no page in two. */
  ghost predicate Once(before: seq<Span>, spans: seq<Span>, was: seq<nat>, now: seq<nat>)
  {
    forall p: nat | p < PAGES ::
      && Count(before, p) <= Count(spans, p) <= Count(before, p) + 1
      && (Unlike(was, now, p) ==> Count(spans, p) == Count(before, p) + 1)
  }

  /** The control register after a write: M, the cache enables, V, RR and the TCM bits are
      writable, bits 3 to 6 read as one. */
  function Control(old_: seq<bool>, value: seq<bool>): (r: seq<bool>)
    requires |old_| == |value| == 32
    ensures |r| == 32
  {
    seq(32, b requires 0 <= b < 32 =>
      if 3 <= b <= 6 then true else if b in {0, 2, 7} || 12 <= b <= 19 then value[b] else old_[b])
  }

  datatype Write =
    | ToControl(bits: seq<bool>)
    | ToDataCacheable(bits: seq<bool>)
    | ToCodeCacheable(bits: seq<bool>)
    | ToRegion(n: nat, value: nat)
    | Elsewhere
  {
    predicate Ok()
    {
      match this
      case ToRegion(n, v) => n < 8 && v < 0x1_0000_0000
      case Elsewhere => true
      case _ => |bits| == 32
    }
  }

  /** The registers after a CP15 write. */
  function Written(r: Regs, w: Write): (r': Regs)
    requires r.Ok() && w.Ok()
    ensures r'.Ok()
  {
    match w
    case ToControl(bits) => r.(ctl := Control(r.ctl, bits))
    case ToDataCacheable(bits) => r.(dc := bits)
    case ToCodeCacheable(bits) => r.(cc := bits)
    case ToRegion(n, v) => r.(rgn := r.rgn[n := v])
    case Elsewhere => r
  }

  predicate AllOk(ws: seq<Write>) { forall w | w in ws :: w.Ok() }

  /** The registers after the first n of a sequence of writes. */
  function WrittenAll(r: Regs, ws: seq<Write>, n: nat): (r': Regs)
    requires r.Ok() && AllOk(ws) && n <= |ws|
    ensures r'.Ok()
  {
    if n == 0 then r else Written(WrittenAll(r, ws, n - 1), ws[n - 1])
  }

  /** The registers after reset: control 0x2078, everything else zero. */
  function Reset(): (r: Regs)
    ensures r.Ok() && !r.Pu() && forall page: nat :: Painted(r, page) == 0
  {
    var none := seq(32, _ => false);
    Regs(seq(32, b => b == 13 || 3 <= b <= 6), none, none, seq(8, _ => 0))
  }

  /** Control bits other than the unit's enable and the two cache enables do not reach the map. */
  lemma OnlyThreeBits(r: Regs, ctl: seq<bool>, page: nat)
    requires r.Ok() && |ctl| == 32 && ctl[0] == r.ctl[0] && ctl[2] == r.ctl[2] && ctl[12] == r.ctl[12]
    ensures Painted(r.(ctl := ctl), page) == Painted(r, page)
  {
    var r' := r.(ctl := ctl);
    assert forall n | 0 <= n < 8 :: Decode(r', n) == Decode(r, n);
    assert Regions(r') == Regions(r);
  }

  /** Two passes, the second leaving alone what the first changed. */
  lemma ExactlyTwice(s0: seq<Span>, s1: seq<Span>, s2: seq<Span>, w0: seq<nat>, w1: seq<nat>, w2: seq<nat>)
    requires |w0| == |w1| == |w2| == PAGES && Exactly(s0, s1, w0, w1) && Exactly(s1, s2, w1, w2)
    requires forall p: nat | p < PAGES :: w0[p] == w1[p] || w1[p] == w2[p]
    ensures Exactly(s0, s2, w0, w2) && (w0 != w2 <==> w0 != w1 || w1 != w2)
  {
    forall p: nat | p < PAGES
      ensures Unlike(w0, w2, p) <==> Unlike(w0, w1, p) || Unlike(w1, w2, p)
    {
    }
    assert forall p: nat | p < PAGES && Unlike(w0, w1, p) :: w0[p] != w2[p];
    assert forall p: nat | p < PAGES && Unlike(w1, w2, p) :: w0[p] != w2[p];
    if w0 != w1 {
      var p: nat :| p < PAGES && w0[p] != w1[p];
      assert Unlike(w0, w1, p);
    }
    if w1 != w2 {
      var p: nat :| p < PAGES && w1[p] != w2[p];
      assert Unlike(w1, w2, p);
    }
  }

  /** One of the first n regions changed and covers the page, before or now. */
  predicate Reached(cur: seq<Region>, prev: seq<Region>, n: nat, page: nat)
    requires n <= |cur| == |prev|
  {
    n > 0 && (Touched(cur, prev, n - 1, page) || Reached(cur, prev, n - 1, page))
  }

  lemma {:induction false} ReachedBy(cur: seq<Region>, prev: seq<Region>, n: nat, page: nat)
    requires n <= |cur| == |prev| && !Reached(cur, prev, n, page)
    ensures forall k: nat | k < n :: !Touched(cur, prev, k, page)
  {
    if n > 0 {
      ReachedBy(cur, prev, n - 1, page);
    }
  }

  /** A page no rescan reaches already holds the value the new regions give it. */
  lemma Unreached(cur: seq<Region>, prev: seq<Region>, page: nat)
    requires |cur| == |prev| == 8
    ensures !Reached(cur, prev, 8, page) ==> Value(cur, page, 8) == Value(prev, page, 8)
  {
    if !Reached(cur, prev, 8, page) {
      ReachedBy(cur, prev, 8, page);
      UntouchedKeeps(cur, prev, page, 8);
    }
  }

  /** Rescanning region n leaves the pages already reached as they are. */
  lemma ReachedStays(cur: seq<Region>, prev: seq<Region>, n: nat, was: seq<nat>, mid: seq<nat>, now: seq<nat>)
    requires n < |cur| == |prev| == 8 && |was| == |mid| == |now| == PAGES && !Same(cur[n], prev[n])
    requires forall p: nat | p < PAGES :: mid[p] == if Reached(cur, prev, n, p) then Value(cur, p, 8) else was[p]
    requires forall p: nat | p < PAGES ::
      now[p] == if prev[n].Covers(p) || cur[n].Covers(p) then Value(cur, p, 8) else mid[p]
    ensures forall p: nat | p < PAGES :: was[p] == mid[p] || mid[p] == now[p]
    ensures forall p: nat | p < PAGES :: now[p] == if Reached(cur, prev, n + 1, p) then Value(cur, p, 8) else was[p]
  {
  }

  /** One page's ranges: none yet when pending, else one if it changed, and never two. */
  predicate Logged(now: nat, before: nat, pending: bool, changed: bool)
  {
    if pending then now == before else before <= now <= before + 1 && (changed ==> now == before + 1)
  }

  lemma SameThreeBits(r: Regs, ctl: seq<bool>)
    requires r.Ok() && |ctl| == 32 && ctl[0] == r.ctl[0] && ctl[2] == r.ctl[2] && ctl[12] == r.ctl[12]
    ensures forall p: nat :: Painted(r.(ctl := ctl), p) == Painted(r, p)
  {
    forall p: nat
      ensures Painted(r.(ctl := ctl), p) == Painted(r, p)
    {
      OnlyThreeBits(r, ctl, p);
    }
  }

  class Cp15 {
    var regs: Regs
    var memoValid: bool
    var memo: Regs
    const pages: array<nat>
    ghost var spans: seq<Span>       // ranges handed to the timing table, in order
    ghost var notices: nat           // times the CPU was told the timing changed

    ghost predicate Shape()
      reads this
    {
      pages.Length == PAGES && regs.Ok() && memo.Ok()
    }

    ghost predicate Holds(r: Regs)
      requires pages.Length == PAGES && r.Ok()
      reads this, pages
    {
      forall p: nat | p < PAGES :: pages[p] == Painted(r, p)
    }

    /** The map a valid memo stands for is the one in place. */
    ghost predicate Valid()
      reads this, pages
    {
      Shape() && (memoValid ==> Holds(memo))
    }

    /** Reset: the map is all zero, which is what the registers after reset stand for, and there is no
        memo yet. */
    constructor ()
      ensures Valid() && Holds(regs) && fresh(pages) && !memoValid && regs == Reset() && spans == [] && notices == 0
    {
      regs, memo, memoValid, spans, notices := Reset(), Reset(), false, [], 0;
      pages := new nat[PAGES](_ => 0);
    }

    /** The ranges of a rescan so far: pages below i are up to date, and those that changed are in
        one range each, but for the run still open. */
    ghost predicate Scanning(rs: seq<Region>, r: Region, was: seq<nat>, before: seq<Span>, i: nat, inRun: bool,
                            run: nat)
      requires |rs| == 8 && |was| == PAGES == pages.Length
      reads this, pages
    {
      && i <= PAGES && (inRun ==> r.start <= run < i && forall p: nat | run <= p < i :: was[p] != Value(rs, p, 8))
      && (forall p: nat | p < PAGES :: pages[p] == if r.start <= p < i then Value(rs, p, 8) else was[p])
      && forall p: nat | p < PAGES ::
           Count(spans, p) == Count(before, p) + if was[p] != pages[p] && !(inRun && run <= p) then 1 else 0
    }

    /** A run of pages that changed, handed to the timing table. */
    method Flush(first: nat, end: nat)
      modifies this`spans
      ensures forall p: nat :: Count(spans, p) == old(Count(spans, p)) + if first <= p < end then 1 else 0
      ensures |spans| == |old(spans)| + 1
    {
      forall p: nat
        ensures Count(spans + [Span(first, end)], p) == Count(spans, p) + if first <= p < end then 1 else 0
      {
        CountMore(spans, Span(first, end), p);
      }
      spans := spans + [Span(first, end)];
    }

    /** A page that differs is brought up to date, in the run open or in a new one. */
    method Repaint(rs: seq<Region>, r: Region, ghost was: seq<nat>, ghost before: seq<Span>, i: nat, v: nat,
                   inRun: bool, run: nat)
        returns (run': nat)
      requires |rs| == 8 && |was| == PAGES == pages.Length && i < PAGES && r.start <= i
      requires Scanning(rs, r, was, before, i, inRun, run) && v == Value(rs, i, 8) && pages[i] != v
      modifies pages
      ensures Scanning(rs, r, was, before, i + 1, true, run') && pages[i] != was[i]
    {
      run' := if inRun then run else i;
      pages[i] := v;
    }

    /** The run open at page i is handed on. */
    method Close(rs: seq<Region>, r: Region, ghost was: seq<nat>, ghost before: seq<Span>, i: nat, run: nat)
      requires |rs| == 8 && |was| == PAGES == pages.Length
      requires Scanning(rs, r, was, before, i, true, run)
      modifies this`spans
      ensures Scanning(rs, r, was, before, i, false, run)
    {
      Flush(run, i);
    }

    /** `rescan`: the pages of one extent brought up to date, and each run of them that changed
        handed on. */
    method Rescan(rs: seq<Region>, r: Region) returns (changed: bool)
      requires pages.Length == PAGES && |rs| == 8 && (r.on ==> r.size > 0 && r.start + r.size <= PAGES)
      modifies pages, this`spans
      ensures forall p: nat | p < PAGES :: pages[p] == if r.Covers(p) then Value(rs, p, 8) else old(pages[p])
      ensures Exactly(old(spans), spans, old(pages[..]), pages[..]) && changed == (pages[..] != old(pages[..]))
    {
      changed := false;
      if !r.on {
        return;
      }
      ghost var was, before := pages[..], spans;
      var end := if r.start + r.size < PAGES then r.start + r.size else PAGES;
      var run: nat, inRun := 0, false;
      ghost var first: nat := PAGES;
      var i: nat := r.start;
      while i <= end
        invariant r.start <= i <= end + 1 && (i > end ==> !inRun)
        invariant Scanning(rs, r, was, before, if i <= end then i else end, inRun, run)
        invariant if changed || inRun then first < i && first < PAGES && pages[first] != was[first]
                  else pages[..] == was
      {
        var v := FindValue(rs, i);
        if i < end && pages[i] != v {
          run := Repaint(rs, r, was, before, i, v, inRun, run);
          inRun, first := true, i;
        } else if inRun {
          Close(rs, r, was, before, i, run);
          changed, inRun := true, false;
        }
        i := i + 1;
      }
    }

    /** The highest-numbered enabled region over a page. */
    method FindValue(rs: seq<Region>, page: nat) returns (v: nat)
      requires |rs| == 8
      ensures v == Value(rs, page, 8)
    {
      var n := 8;
      while n > 0
        invariant n <= 8 && Value(rs, page, 8) == Value(rs, page, n)
      {
        n := n - 1;
        if rs[n].Covers(page) {
          return rs[n].m;
        }
      }
      return 0;
    }

    /** A changed region: its old extent rescanned, then its new one. */
    method RescanBoth(rs: seq<Region>, prev: Region, cur: Region) returns (changed: bool)
      requires pages.Length == PAGES && |rs| == 8
      requires (prev.on ==> prev.size > 0 && prev.start + prev.size <= PAGES)
      requires (cur.on ==> cur.size > 0 && cur.start + cur.size <= PAGES)
      modifies pages, this`spans
      ensures forall p: nat | p < PAGES ::
        pages[p] == if prev.Covers(p) || cur.Covers(p) then Value(rs, p, 8) else old(pages[p])
      ensures Exactly(old(spans), spans, old(pages[..]), pages[..]) && changed == (pages[..] != old(pages[..]))
    {
      ghost var was, before := pages[..], spans;
      var a := Rescan(rs, prev);
      ghost var mid, between := pages[..], spans;
      var b := Rescan(rs, cur);
      assert forall p: nat | p < PAGES :: was[p] == mid[p] || mid[p] == pages[..][p];
      ExactlyTwice(before, between, spans, was, mid, pages[..]);
      changed := a || b;
    }

    /** The path with the unit on before and after. */
    method Incremental() returns (changed: bool)
      requires Valid() && memoValid && memo.Pu() && regs.Pu()
      modifies pages, this`spans
      ensures Holds(regs) && Exactly(old(spans), spans, old(pages[..]), pages[..])
      ensures changed == (pages[..] != old(pages[..]))
    {
      var cur, prev := Regions(regs), Regions(memo);
      ghost var was, before := pages[..], spans;
      changed := false;
      var n := 0;
      while n < 8
        invariant n <= 8 && Part(cur, prev, was, before, n) && changed == (pages[..] != was)
      {
        if !Same(cur[n], prev[n]) {
          WithinPages(regs, n);
          WithinPages(memo, n);
          ghost var mid, between := pages[..], spans;
          var c := RescanBoth(cur, prev[n], cur[n]);
          ReachedStays(cur, prev, n, was, mid, pages[..]);
          ExactlyTwice(before, between, spans, was, mid, pages[..]);
          changed := changed || c;
        }
        n := n + 1;
      }
      forall p: nat | p < PAGES
        ensures pages[p] == Painted(regs, p)
      {
        Unreached(cur, prev, p);
      }
    }

    /** The extents of the first n changed regions are up to date. */
    ghost predicate Part(cur: seq<Region>, prev: seq<Region>, was: seq<nat>, before: seq<Span>, n: nat)
      requires n <= |cur| == |prev| == 8 && pages.Length == PAGES == |was|
      reads this, pages
    {
      && (forall p: nat | p < PAGES :: pages[p] == if Reached(cur, prev, n, p) then Value(cur, p, 8) else was[p])
      && Exactly(before, spans, was, pages[..])
    }

    /** The whole map built from the registers. */
    method Build() returns (next: array<nat>)
      requires regs.Ok()
      ensures fresh(next) && next.Length == PAGES && forall p: nat | p < PAGES :: next[p] == Painted(regs, p)
    {
      if !regs.Pu() {
        var m := Bits(regs.ctl[2], regs.ctl[12]);
        next := new nat[PAGES](_ => m);
        return;
      }
      next := new nat[PAGES](_ => 0);
      var rs := Regions(regs);
      var n := 0;
      while n < 8
        invariant n <= 8 && forall p: nat | p < PAGES :: next[p] == Value(rs, p, n)
      {
        var r := Decode(regs, n);
        if r.on {
          var i := r.start;
          while i < r.start + r.size && i < PAGES
            invariant r.start <= i && (i <= r.start + r.size)
            invariant forall p: nat | p < PAGES :: next[p] == if r.start <= p < i then r.m else Value(rs, p, n)
          {
            next[i] := r.m;
            i := i + 1;
          }
        }
        n := n + 1;
      }
    }

    /** Chunks below i copied; each page of them that changed is in one range, but for the run
        still open, and no page in two. */
    ghost predicate Diffing(next: seq<nat>, was: seq<nat>, before: seq<Span>, i: nat, inRun: bool, run: nat)
      requires |next| == |was| == PAGES == pages.Length
      reads this, pages
    {
      && (inRun ==> run < i) && i <= PAGES
      && (forall p: nat | p < PAGES :: pages[p] == if p < i then next[p] else was[p])
      && forall p: nat | p < PAGES ::
           Logged(Count(spans, p), Count(before, p), p >= i || (inRun && run <= p), was[p] != next[p])
    }

    /** `memcpy` of one chunk that differs, in the run open or in a new one. */
    method CopyChunk(next: array<nat>, ghost was: seq<nat>, ghost before: seq<Span>, i: nat, inRun: bool, run: nat)
        returns (run': nat)
      requires next.Length == |was| == PAGES == pages.Length && next != pages && i + CHUNK <= PAGES
      requires Diffing(next[..], was, before, i, inRun, run)
      modifies pages
      ensures Diffing(next[..], was, before, i + CHUNK, true, run')
    {
      run' := if inRun then run else i;
      forall k | i <= k < i + CHUNK {
        pages[k] := next[k];
      }
    }

    method CloseChunks(ghost next: seq<nat>, ghost was: seq<nat>, ghost before: seq<Span>, i: nat, run: nat)
      requires |next| == |was| == PAGES == pages.Length && Diffing(next, was, before, i, true, run)
      modifies this`spans
      ensures Diffing(next, was, before, i, false, run)
    {
      Flush(run, i);
    }

    /** A chunk that does not differ is as good as copied. */
    lemma SkipChunk(next: seq<nat>, was: seq<nat>, before: seq<Span>, i: nat, run: nat)
      requires |next| == |was| == PAGES == pages.Length && i + CHUNK <= PAGES
      requires Diffing(next, was, before, i, false, run) && pages[i..i + CHUNK] == next[i..i + CHUNK]
      ensures Diffing(next, was, before, i + CHUNK, false, run)
    {
      forall p: nat | i <= p < i + CHUNK
        ensures pages[p] == next[p]
      {
        assert pages[i..i + CHUNK][p - i] == next[i..i + CHUNK][p - i];
      }
    }

    /** The path that builds the whole map and diffs it, a chunk at a time. */
    method Rebuild() returns (changed: bool)
      requires Shape()
      modifies pages, this`spans
      ensures Holds(regs) && Once(old(spans), spans, old(pages[..]), pages[..])
      ensures old(pages[..]) != pages[..] ==> changed
    {
      var next := Build();
      ghost var was, before := pages[..], spans;
      changed := false;
      var run: nat, inRun := 0, false;
      var i: nat := 0;
      while i <= PAGES
        invariant i % CHUNK == 0 && i <= PAGES + CHUNK && (i > PAGES ==> !inRun)
        invariant Diffing(next[..], was, before, if i <= PAGES then i else PAGES, inRun, run)
        invariant changed || inRun || pages[..] == was
        invariant fresh(next) && next != pages && forall p: nat | p < PAGES :: next[p] == Painted(regs, p)
      {
        if i < PAGES && pages[i..i + CHUNK] != next[i..i + CHUNK] {
          run := CopyChunk(next, was, before, i, inRun, run);
          inRun := true;
        } else {
          if inRun {
            CloseChunks(next[..], was, before, i, run);
            changed, inRun := true, false;
          }
          if i < PAGES {
            SkipChunk(next[..], was, before, i, run);
          }
        }
        i := i + CHUNK;
      }
    }

    /** `cp15_update_pu_map`: the map painted from the registers, whichever path brought it there;
        the CPU told if any page may have changed. */
    method Update()
      requires Valid()
      modifies this`spans, this`notices, this`memo, this`memoValid, pages
      ensures Valid() && memoValid && memo == regs && Holds(regs)
      ensures Once(old(spans), spans, old(pages[..]), pages[..])
      ensures old(memoValid && memo.Pu()) && regs.Pu() ==> Exactly(old(spans), spans, old(pages[..]), pages[..])
      ensures pages[..] != old(pages[..]) ==> notices == old(notices) + 1
    {
      var changed;
      if regs.Pu() && memoValid && memo.Pu() {
        changed := Incremental();
      } else {
        changed := Rebuild();
      }
      memo, memoValid := regs, true;
      if changed {
        notices := notices + 1;
      }
    }

    /** `cp15_write`, as far as the map sees it: updated only when a register it reads changes. */
    method Write(w: Write)
      requires Valid() && Holds(regs) && w.Ok()
      modifies this`regs, this`spans, this`notices, this`memo, this`memoValid, pages
      ensures Valid() && Holds(regs) && regs == Written(old(regs), w)
    {
      var was := regs;
      match w {
        case ToControl(bits) =>
          regs := regs.(ctl := Control(regs.ctl, bits));
          if was.ctl[0] != regs.ctl[0] || was.ctl[2] != regs.ctl[2] || was.ctl[12] != regs.ctl[12] {
            Update();
          } else {
            SameThreeBits(was, regs.ctl);
          }
        case ToDataCacheable(bits) =>
          if regs.dc != bits {
            regs := regs.(dc := bits);
            Update();
          }
        case ToCodeCacheable(bits) =>
          if regs.cc != bits {
            regs := regs.(cc := bits);
            Update();
          }
        case ToRegion(n, v) =>
          if regs.rgn[n] != v {
            regs := regs.(rgn := regs.rgn[n := v]);
            Update();
          } else {
            assert regs.rgn[n := v] == regs.rgn;
          }
        case Elsewhere =>
      }
    }

    /** Any sequence of CP15 writes leaves the map painted from the registers they leave. */
    method Writes(ws: seq<Write>)
      requires Valid() && Holds(regs) && AllOk(ws)
      modifies this`regs, this`spans, this`notices, this`memo, this`memoValid, pages
      ensures Valid() && Holds(regs) && regs == WrittenAll(old(regs), ws, |ws|)
    {
      var i := 0;
      while i < |ws|
        invariant i <= |ws| && Valid() && Holds(regs) && regs == WrittenAll(old(regs), ws, i)
      {
        Write(ws[i]);
        i := i + 1;
      }
    }
  }

  /** From reset on, the map is the one painted from the registers, whatever is written. */
  method FromReset(ws: seq<Write>) returns (c: Cp15)
    requires AllOk(ws)
    ensures c.Valid() && c.regs == WrittenAll(Reset(), ws, |ws|) && c.Holds(c.regs)
  {
    c := new Cp15();
    c.Writes(ws);
  }
}
