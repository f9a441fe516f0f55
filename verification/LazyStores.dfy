/** Stores into VRAM against lines drawn late (src/core/gpu/gpu.cpp): each line of each engine is
    drawn from exactly the stores that had landed before its HBlank. */
module LazyStores {
  import opened Basics
  import opened LazyFrame

  /** One engine's frame, by the number of stores into what it reads: how many have landed, how
      many had at each HBlank so far, and how many had when each line was drawn. `excused`: a store
      came that the code is known to let through. */
  datatype View = View(landed: nat, ideal: seq<nat>, saw: seq<nat>, excused: bool)

  /** Every line drawn saw what it should have, and every line to draw still will. */
  ghost predicate Right(v: View)
  {
    && |v.saw| <= |v.ideal| && (forall l | 0 <= l < |v.saw| :: v.saw[l] == v.ideal[l])
    && forall l | |v.saw| <= l < |v.ideal| :: v.ideal[l] == v.landed
  }

  /** The view of an engine with `done` lines drawn and `due` HBlanks behind it. */
  ghost predicate Fits(v: View, done: nat, due: nat)
  {
    |v.saw| == done <= |v.ideal| == due && (!v.excused ==> Right(v))
  }

  /** Lines up to `done` drawn, with no store in between. */
  ghost function Watched(v: View, done: nat): View
    requires |v.saw| <= done
  {
    v.(saw := v.saw + seq(done - |v.saw|, _ => v.landed))
  }

  /** A display line's HBlank. */
  ghost function Scanned(v: View): View { v.(ideal := v.ideal + [v.landed]) }

  /** A store lands. */
  ghost function Hit(v: View, hit: bool, excuse: bool): View
  {
    if hit then v.(landed := v.landed + 1, excused := v.excused || excuse) else v
  }

  lemma WatchedFits(v: View, done: nat, due: nat, done': nat)
    requires Fits(v, done, due) && done <= done' <= due
    ensures Fits(Watched(v, done'), done', due)
  {
  }

  lemma ScannedFits(v: View, done: nat, due: nat)
    requires Fits(v, done, due)
    ensures Fits(Scanned(v), done, due + 1)
  {
  }

  /** A store is harmless to an engine that has drawn every line below the frontier. */
  lemma HitFits(v: View, done: nat, due: nat, hit: bool, excuse: bool)
    requires Fits(v, done, due) && (hit && done < due ==> excuse)
    ensures Fits(Hit(v, hit, excuse), done, due)
  {
  }

  // ---- both engines ------------------------------------------------------------------------------

  /** The views of engines with `a` and `b` lines drawn and `due` HBlanks behind them. */
  ghost predicate BothFit(vs: seq<View>, a: nat, b: nat, due: nat)
  {
    |vs| == 2 && Fits(vs[0], a, due) && Fits(vs[1], b, due)
  }

  ghost function BothWatched(vs: seq<View>, a: nat, b: nat): (r: seq<View>)
    requires |vs| == 2 && |vs[0].saw| <= a && |vs[1].saw| <= b
  {
    [Watched(vs[0], a), Watched(vs[1], b)]
  }

  lemma BothWatchedFit(vs: seq<View>, a: nat, b: nat, due: nat, a': nat, b': nat)
    requires BothFit(vs, a, b, due) && a <= a' <= due && b <= b' <= due
    ensures BothFit(BothWatched(vs, a', b'), a', b', due)
  {
    WatchedFits(vs[0], a, due, a');
    WatchedFits(vs[1], b, due, b');
  }

  /** The views over a store: it has landed on the engines it can change, and excuses no other. */
  ghost predicate Follows(was: seq<View>, hit: seq<bool>, a: bool, b: bool, now: seq<View>)
  {
    && |was| == |hit| == |now| == 2 && now[0].ideal == was[0].ideal && now[1].ideal == was[1].ideal
    && now[0].landed == was[0].landed + (if hit[0] then 1 else 0) && now[0].excused == (was[0].excused || (hit[0] && a))
    && now[1].landed == was[1].landed + (if hit[1] then 1 else 0) && now[1].excused == (was[1].excused || (hit[1] && b))
  }

  /** A display line's HBlank for both. */
  lemma ScannedFit(vs: seq<View>, a: nat, b: nat, due: nat) returns (r: seq<View>)
    requires BothFit(vs, a, b, due)
    ensures BothFit(r, a, b, due + 1) && (NoneExcused(vs) ==> NoneExcused(r)) && r == [Scanned(vs[0]), Scanned(vs[1])]
  {
    ScannedFits(vs[0], a, due);
    ScannedFits(vs[1], b, due);
    r := [Scanned(vs[0]), Scanned(vs[1])];
  }

  /** The lines drawn before a store lands, and a store that excuses what it does to the others. */
  lemma StoreFits(vs: seq<View>, a: nat, b: nat, due: nat, a': nat, b': nat, hit: seq<bool>, ea: bool, eb: bool)
    returns (r: seq<View>)
    requires BothFit(vs, a, b, due) && a <= a' <= due && b <= b' <= due && |hit| == 2
    requires (hit[0] && !ea ==> a' == due) && (hit[1] && !eb ==> b' == due)
    ensures BothFit(r, a', b', due) && Follows(vs, hit, ea, eb, r)
  {
    BothWatchedFit(vs, a, b, due, a', b');
    var ws := BothWatched(vs, a', b');
    HitFits(ws[0], a', due, hit[0], ea);
    HitFits(ws[1], b', due, hit[1], eb);
    r := [Hit(ws[0], hit[0], ea), Hit(ws[1], hit[1], eb)];
  }

  /** A frame's views when it ends. */
  ghost predicate Ended(frame: seq<View>)
  {
    |frame| == 2 && forall v | v in frame :: |v.ideal| == |v.saw| == SCREEN_H && (!v.excused ==> v.saw == v.ideal)
  }

  /** The lines still on a worker at the end of a frame joined. */
  lemma FrameViews(vs: seq<View>, a: nat, b: nat) returns (r: seq<View>)
    requires BothFit(vs, a, b, SCREEN_H)
    ensures Ended(r) && r == BothWatched(vs, SCREEN_H, SCREEN_H) && (NoneExcused(vs) ==> NoneExcused(r))
  {
    BothWatchedFit(vs, a, b, SCREEN_H, SCREEN_H, SCREEN_H);
    r := BothWatched(vs, SCREEN_H, SCREEN_H);
  }

  datatype Access =
    | Tick(env: Env, lazyOn: bool, lagOn: bool)
    | StoreTo(toB: bool, env: Env)
    | Remap(covered: bool, env: Env)
    | ShowBank(env: Env)

  /** Accesses under which no store is ever let through. */
  predicate Harmless(a: Access) { a.Tick? || a.StoreTo? || (a.Remap? && !a.covered) }

  class Watch {
    const gpu: Gpu
    ghost var views: seq<View>
    ghost var past: seq<seq<View>>

    constructor (lazyOn: bool, lagOn: bool)
      ensures Valid() && fresh(gpu) && Clean() && past == []
    {
      gpu := new Gpu(lazyOn, lagOn);
      views, past := [View(0, [], [], false), View(0, [], [], false)], [];
      new;
      gpu.BothDrawn();
    }

    ghost predicate Watching()
      reads this, gpu
    {
      gpu.Valid() && gpu.Guard() && BothFit(views, |gpu.drawn[0]|, |gpu.drawn[1]|, gpu.Due())
    }

    /** What every access keeps: the frames that ended drew each engine's lines from the stores
        before their HBlanks, bar the engines excused. */
    ghost predicate Valid()
      reads this, gpu
    {
      Watching() && Past()
    }

    ghost predicate Past()
      reads this`past
    {
      forall f | f in past :: Ended(f)
    }

    /** Nobody excused, and nothing at hand that would excuse. */
    ghost predicate Clean()
      reads this, gpu
    {
      !gpu.stale && !gpu.lifted && NoneExcused(views) && forall f | f in past :: NoneExcused(f)
    }

    /** The views brought up to date. */
    ghost method Note(vs: seq<View>)
      requires gpu.Valid() && gpu.Guard() && Past() && BothFit(vs, |gpu.drawn[0]|, |gpu.drawn[1]|, gpu.Due())
      modifies this`views
      ensures Valid() && views == vs
    {
      views := vs;
    }

    /** A store to an engine's windows, the trap before it. */
    method Store(toB: bool, env: Env)
      requires Valid()
      modifies this`views, gpu
      ensures Valid() && (gpu.stale ==> old(gpu.stale)) && gpu.lifted == old(gpu.lifted)
      ensures Follows(old(views), old(gpu.Hit(To(toB))), old(gpu.Excuse(toB, 0)), old(gpu.Excuse(toB, 1)), views)
    {
      ghost var hit, ea, eb := gpu.Hit(To(toB)), gpu.Excuse(toB, 0), gpu.Excuse(toB, 1);
      ghost var a, b := |gpu.drawn[0]|, |gpu.drawn[1]|;
      gpu.StoreTo(toB, env);
      ghost var vs := StoreFits(views, a, b, gpu.Due(), |gpu.drawn[0]|, |gpu.drawn[1]|, hit, ea, eb);
      Note(vs);
    }

    /** What an access that stores nothing has drawn is noted. */
    ghost method Observe(vs: seq<View>, a: nat, b: nat)
      requires gpu.Valid() && gpu.Guard() && Past() && BothFit(vs, a, b, gpu.Due())
      requires a <= |gpu.drawn[0]| && b <= |gpu.drawn[1]|
      modifies this`views
      ensures Valid() && (NoneExcused(vs) ==> NoneExcused(views))
    {
      gpu.BothDrawn();
      BothWatchedFit(vs, a, b, gpu.Due(), |gpu.drawn[0]|, |gpu.drawn[1]|);
      Note(BothWatched(vs, |gpu.drawn[0]|, |gpu.drawn[1]|));
    }

    method Remap(covered: bool, env: Env)
      requires Valid()
      modifies this`views, gpu
      ensures Valid() && (!covered && old(Clean()) ==> Clean())
    {
      ghost var a, b := |gpu.drawn[0]|, |gpu.drawn[1]|;
      gpu.Remap(covered, env);
      Observe(views, a, b);
    }

    method ShowBank(env: Env)
      requires Valid()
      modifies this`views, gpu
      ensures Valid()
    {
      ghost var a, b := |gpu.drawn[0]|, |gpu.drawn[1]|;
      gpu.ShowBank(env);
      Observe(views, a, b);
    }

    /** An HBlank: the line it belongs to counts the stores so far. */
    method HBlank(env: Env)
      requires Valid() && !gpu.hblankDone
      modifies this`views, gpu
      ensures Valid() && gpu.hblankDone && gpu.line == old(gpu.line) && (old(Clean()) ==> Clean())
    {
      ghost var a, b, vs := |gpu.drawn[0]|, |gpu.drawn[1]|, views;
      if gpu.line < SCREEN_H {
        vs := ScannedFit(vs, a, b, gpu.Due());
      }
      gpu.OnHBlank(env);
      Observe(vs, a, b);
    }

    /** A scanline start within a frame. */
    method NextLine(lazyOn: bool, lagOn: bool)
      requires Valid() && gpu.hblankDone && gpu.line + 1 < LINES
      modifies gpu
      ensures Valid() && !gpu.hblankDone && (old(Clean()) ==> Clean())
    {
      gpu.OnScanlineStart(lazyOn, lagOn);
    }

    /** The frame before joined, and its views kept. */
    method NextFrame(lazyOn: bool, lagOn: bool)
      requires Valid() && gpu.hblankDone && gpu.line + 1 == LINES
      modifies this`views, this`past, gpu
      ensures Valid() && !gpu.hblankDone && gpu.line == 0 && (old(Clean()) ==> Clean())
      ensures |past| == old(|past|) + 1 && old(past) <= past
    {
      ghost var ended := FrameViews(views, |gpu.drawn[0]|, |gpu.drawn[1]|);
      gpu.OnScanlineStart(lazyOn, lagOn);
      gpu.BothDrawn();
      Begin(ended);
    }

    ghost method Begin(ended: seq<View>)
      requires gpu.Valid() && gpu.Guard() && Past() && Ended(ended)
      requires gpu.Due() == |gpu.drawn[0]| == |gpu.drawn[1]| == 0
      modifies this`views, this`past
      ensures Valid() && past == old(past) + [ended] && NoneExcused(views)
    {
      past := past + [ended];
      views := [View(ended[0].landed, [], [], false), View(ended[1].landed, [], [], false)];
    }

    method Tick(env: Env, lazyOn: bool, lagOn: bool)
      requires Valid()
      modifies this`views, this`past, gpu
      ensures Valid() && old(past) <= past && (old(Clean()) ==> Clean())
    {
      if !gpu.hblankDone {
        HBlank(env);
      } else if gpu.line + 1 == LINES {
        NextFrame(lazyOn, lagOn);
      } else {
        NextLine(lazyOn, lagOn);
      }
    }

    method Access(a: Access)
      requires Valid()
      modifies this`views, this`past, gpu
      ensures Valid() && old(past) <= past && (old(Clean()) && Harmless(a) ==> Clean())
    {
      match a
      case Tick(env, lazyOn, lagOn) => Tick(env, lazyOn, lagOn);
      case StoreTo(toB, env) => Store(toB, env);
      case Remap(covered, env) => Remap(covered, env);
      case ShowBank(env) => ShowBank(env);
    }

    /** Any run of accesses: in every frame that ends, each engine drew each line from exactly the
        stores that had landed before the line's HBlank, unless it was excused in that frame. With
        no remap under lines in flight and no switch to VRAM display, none ever is. */
    method Run(accesses: seq<Access>)
      requires Valid()
      modifies this`views, this`past, gpu
      ensures Valid() && old(past) <= past
      ensures old(Clean()) && (forall a | a in accesses :: Harmless(a)) ==> Clean()
    {
      var i := 0;
      while i < |accesses|
        invariant i <= |accesses| && Valid() && old(past) <= past
        invariant old(Clean()) && (forall a | a in accesses :: Harmless(a)) ==> Clean()
      {
        assert accesses[i] in accesses;
        Access(accesses[i]);
        i := i + 1;
      }
    }
  }

  ghost predicate NoneExcused(vs: seq<View>) { forall v | v in vs :: !v.excused }
}
