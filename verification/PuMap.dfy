/** The protection unit's cacheability map (src/core/cpu/cp15.cpp): what the eight regions paint,
    and why only the old and new extents of changed regions need repainting. */
module PuMap {
  import opened Basics

  const PAGES := 0x100000
  const CHUNK := 256

  /** [start, start + size) in 4 KB pages, and the cacheability bits it paints. */
  datatype Region = Region(on: bool, start: nat, size: nat, m: nat) {
    predicate Covers(page: nat) { on && start <= page < start + size }
  }

  /** The registers the map depends on: control, the two cacheability masks, the regions. */
  datatype Regs = Regs(ctl: seq<bool>, dc: seq<bool>, cc: seq<bool>, rgn: seq<nat>) {
    predicate Ok() { |ctl| == |dc| == |cc| == 32 && |rgn| == 8 && forall n | 0 <= n < 8 :: rgn[n] < 0x1_0000_0000 }
    predicate Pu() requires Ok() { ctl[0] }
  }

  /** A region's extent: 2^size pages from a start rounded down to its size, one page at least and
      everything at most. */
  function Size(rgn: nat): (s: nat)
    ensures s > 0
  {
    var bits: int := (rgn / 2) % 32 - 11;
    if bits <= 0 then 1 else if bits >= 20 then PAGES else Pow2(bits)
  }

  function Start(rgn: nat, size: nat): nat
    requires size > 0
  {
    rgn / 4096 / size * size
  }

  function Bits(data: bool, code: bool): nat { (if data then 0x10 else 0) + (if code then 0x40 else 0) }

  /** `decode_region`. */
  function Decode(r: Regs, n: nat): Region
    requires r.Ok() && n < 8
  {
    if r.rgn[n] % 2 == 0 then Region(false, 0, 0, 0)
    else Region(true, Start(r.rgn[n], Size(r.rgn[n])), Size(r.rgn[n]), Bits(r.ctl[2] && r.dc[n], r.ctl[12] && r.cc[n]))
  }

  function Regions(r: Regs): (s: seq<Region>)
    requires r.Ok()
    ensures |s| == 8 && forall n | 0 <= n < 8 :: s[n] == Decode(r, n)
  {
    seq(8, n requires 0 <= n < 8 => Decode(r, n))
  }

  /** `same_region`. */
  predicate Same(a: Region, b: Region)
  {
    a.on == b.on && (!a.on || (a.start == b.start && a.size == b.size && a.m == b.m))
  }

  /** The bits the highest-numbered enabled region over a page paints, among the first n. */
  function Value(rs: seq<Region>, page: nat, n: nat): nat
    requires n <= |rs|
  {
    if n == 0 then 0 else if rs[n - 1].Covers(page) then rs[n - 1].m else Value(rs, page, n - 1)
  }

  /** The map from scratch: the regions painted in order when the unit is on, one value for all
      pages when it is off. */
  function Painted(r: Regs, page: nat): nat
    requires r.Ok()
  {
    if r.Pu() then Value(Regions(r), page, 8) else Bits(r.ctl[2], r.ctl[12])
  }

  // ---- extents --------------------------------------------------------------------------

  lemma {:induction false} Doubles(k: nat, n: nat)
    requires k <= n
    ensures Pow2(n) == Pow2(k) * Pow2(n - k)
    decreases n - k
  {
    if k < n {
      Doubles(k, n - 1);
    }
  }

  lemma RoundDown(x: nat, size: nat, q: nat)
    requires size > 0 && x < q * size
    ensures x / size * size + size <= q * size
  {
    var d := x / size;
    assert d * size <= x;
    assert d < q by {
      if q <= d {
        MulOrder(q, d, size);
      }
    }
    MulOrder(d + 1, q, size);
  }

  lemma Whole()
    ensures Pow2(20) == PAGES
  {
    assert Pow2(4) == 16;
    Doubles(4, 8);
    Doubles(8, 16);
    Doubles(4, 20);
  }

  /** No region reaches past the address space: the clamp at its end never bites. */
  lemma WithinPages(r: Regs, n: nat)
    requires r.Ok() && n < 8
    ensures Decode(r, n).on ==> Decode(r, n).start + Decode(r, n).size <= PAGES
  {
    var rgn: int := r.rgn[n];
    var bits: int := (rgn / 2) % 32 - 11;
    var page := rgn / 4096;
    assert page < PAGES;
    if 0 < bits < 20 {
      Whole();
      var k: nat := bits;
      Doubles(20 - k, 20);
      RoundDown(page, Pow2(k), Pow2(20 - k));
    } else if bits >= 20 {
      RoundDown(page, PAGES, 1);
    }
  }

  // ---- what a change can reach ---------------------------------------------------------

  /** Region n changed, and covered the page before or does now. */
  predicate Touched(cur: seq<Region>, prev: seq<Region>, n: nat, page: nat)
    requires n < |cur| == |prev|
  {
    !Same(cur[n], prev[n]) && (prev[n].Covers(page) || cur[n].Covers(page))
  }

  /** A page no changed region covers, before or now, keeps its value. */
  lemma {:induction false} UntouchedKeeps(cur: seq<Region>, prev: seq<Region>, page: nat, n: nat)
    requires n <= |cur| == |prev| && forall k: nat | k < n :: !Touched(cur, prev, k, page)
    ensures Value(cur, page, n) == Value(prev, page, n)
  {
    if n > 0 {
      UntouchedKeeps(cur, prev, page, n - 1);
      assert !Touched(cur, prev, n - 1, page);
    }
  }

  // ---- timing updates ----------------------------------------------------------------------

  /** A page range handed to the timing table, [first, end). */
  datatype Span = Span(first: nat, end: nat)

  /** How many of the ranges hold a page. */
  function Count(spans: seq<Span>, page: nat): nat
  {
    if spans == [] then 0
    else Count(spans[..|spans| - 1], page) + if spans[|spans| - 1].first <= page < spans[|spans| - 1].end then 1 else 0
  }

  lemma CountMore(spans: seq<Span>, s: Span, page: nat)
    ensures Count(spans + [s], page) == Count(spans, page) + if s.first <= page < s.end then 1 else 0
  {
    assert (spans + [s])[..|spans|] == spans;
  }
}
