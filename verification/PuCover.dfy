/** What the eight regions cover and what the map holds, in addresses and register bits
    (src/core/cpu/cp15.cpp). */
module PuCover {
  import opened Basics
  import opened PuMap
  import opened PuUnit

  /** The region register's size field n: 2^(n + 1) bytes, 4 KB at least. */
  ghost predicate InRegion(reg: nat, addr: nat) {
    && reg % 2 == 1
    && var n := reg / 2 % 32;
       if n >= 11 then addr / Pow2(n + 1) == reg / Pow2(n + 1) else addr / 4096 == reg / 4096
  }

  lemma Regrouped(a: nat, b: nat, q: nat, r: nat, t: nat)
    requires r < b && t < a
    ensures a * (b * q + r) + t == q * (a * b) + (a * r + t) && a * r + t < a * b
  {
    assert a * (b * q + r) == a * (b * q) + a * r;
    assert a * (b * q) == q * (a * b);
    MulApart(r, b, a);
  }

  lemma DivDiv(x: nat, a: nat, b: nat)
    requires a > 0 && b > 0
    ensures x / (a * b) == x / a / b
  {
    QuotientOf(x, a, b, x / a / b, x / a % b, x % a);
  }

  lemma QuotientOf(x: nat, a: nat, b: nat, q: nat, r: nat, t: nat)
    requires a > 0 && b > 0 && x == a * (b * q + r) + t && r < b && t < a
    ensures x / (a * b) == q
  {
    Regrouped(a, b, q, r, t);
    var m, rest := a * b, a * r + t;
    DivModUnique(x, m, q, rest);
  }

  /** x lies in the stretch of `size` from y rounded down exactly when both have one quotient. */
  lemma SameStretch(x: nat, y: nat, size: nat)
    requires size > 0
    ensures y / size * size <= x < y / size * size + size <==> x / size == y / size
  {
    var d := y / size;
    if d * size <= x < d * size + size {
      DivModUnique(x, size, d, x - d * size);
    }
  }

  lemma PagesOf(addr: nat, n: nat)
    requires 11 <= n <= 31
    ensures addr / Pow2(n + 1) == addr / 4096 / Pow2(n - 11)
  {
    assert Pow2(4) == 16;
    Doubles(4, 8);
    Doubles(8, 12);
    assert Pow2(12) == 4096;
    Doubles(12, n + 1);
    DivDiv(addr, 4096, Pow2(n - 11));
  }

  /** An enabled region with size field n, 11 or more, covers the addresses that agree with its base
      from bit n + 1 up; with a smaller one it covers its base page. */
  lemma CoversExactly(r: Regs, k: nat, addr: nat)
    requires r.Ok() && k < 8 && addr < 0x1_0000_0000
    ensures Decode(r, k).Covers(addr / 4096) <==> InRegion(r.rgn[k], addr)
  {
    var reg := r.rgn[k];
    var n, page := reg / 2 % 32, addr / 4096;
    if reg % 2 == 1 {
      SameStretch(page, reg / 4096, Size(reg));
      if n >= 11 {
        PagesOf(addr, n);
        PagesOf(reg, n);
        if n == 31 { Whole(); }
      }
    }
  }

  /** Region k is the highest-numbered one that covers the address. */
  ghost predicate Rules(r: Regs, k: nat, addr: nat)
    requires r.Ok()
  {
    k < 8 && InRegion(r.rgn[k], addr) && forall j: nat | k < j < 8 :: !InRegion(r.rgn[j], addr)
  }

  /** Data cacheable as 0x10, code cacheable as 0x40. */
  ghost predicate Holds(v: nat, data: bool, code: bool) {
    v == if data then (if code then 0x50 else 0x10) else if code then 0x40 else 0
  }

  lemma {:induction false} ValueOf(r: Regs, addr: nat, k: nat, n: nat)
    requires r.Ok() && addr < 0x1_0000_0000 && k < n <= 8 && InRegion(r.rgn[k], addr)
    requires forall j: nat | k < j < n :: !InRegion(r.rgn[j], addr)
    ensures Value(Regions(r), addr / 4096, n) == Decode(r, k).m
  {
    CoversExactly(r, n - 1, addr);
    if k < n - 1 {
      ValueOf(r, addr, k, n - 1);
    }
  }

  lemma {:induction false} NoValue(r: Regs, addr: nat, n: nat)
    requires r.Ok() && addr < 0x1_0000_0000 && n <= 8 && forall j: nat | j < n :: !InRegion(r.rgn[j], addr)
    ensures Value(Regions(r), addr / 4096, n) == 0
  {
    if n > 0 {
      CoversExactly(r, n - 1, addr);
      NoValue(r, addr, n - 1);
    }
  }

  /** The map at the page of an address, with the unit on: under the highest region k that covers the
      address, data cacheable if control bit 2 and bit k of the data mask are set, code cacheable if
      control bit 12 and bit k of the code mask are. */
  lemma UnderRegion(r: Regs, k: nat, addr: nat)
    requires r.Ok() && addr < 0x1_0000_0000 && r.ctl[0] && Rules(r, k, addr)
    ensures Holds(Painted(r, addr / 4096), r.ctl[2] && r.dc[k], r.ctl[12] && r.cc[k])
  {
    ValueOf(r, addr, k, 8);
  }

  /** Under no region nothing is cacheable; with the unit off the control register alone decides. */
  lemma UnderNone(r: Regs, addr: nat)
    requires r.Ok() && addr < 0x1_0000_0000
    ensures r.ctl[0] && (forall k: nat | k < 8 :: !InRegion(r.rgn[k], addr)) ==> Painted(r, addr / 4096) == 0
    ensures !r.ctl[0] ==> Holds(Painted(r, addr / 4096), r.ctl[2], r.ctl[12])
  {
    if r.ctl[0] && forall k: nat | k < 8 :: !InRegion(r.rgn[k], addr) {
      NoValue(r, addr, 8);
    }
  }

  // ---- the registers after any writes -------------------------------------------------------

  /** Write i is the last of the first n to go where it goes. */
  ghost predicate LastTo(ws: seq<Write>, i: nat, n: nat)
    requires n <= |ws|
  {
    i < n && !ws[i].Elsewhere? && forall j | i < j < n :: !SamePlace(ws[i], ws[j])
  }

  predicate SamePlace(v: Write, w: Write)
  {
    match v
    case ToControl(_) => w.ToControl?
    case ToDataCacheable(_) => w.ToDataCacheable?
    case ToCodeCacheable(_) => w.ToCodeCacheable?
    case ToRegion(k, _) => w.ToRegion? && w.n == k
    case Elsewhere => false
  }

  /** What a write leaves where it goes: the unit's enable and the two cache enables of the control
      register, a whole mask, a whole region register. */
  ghost predicate Stands(r: Regs, w: Write)
    requires r.Ok() && w.Ok()
  {
    match w
    case ToControl(bits) => r.ctl[0] == bits[0] && r.ctl[2] == bits[2] && r.ctl[12] == bits[12]
    case ToDataCacheable(bits) => r.dc == bits
    case ToCodeCacheable(bits) => r.cc == bits
    case ToRegion(k, value) => r.rgn[k] == value
    case Elsewhere => true
  }

  lemma ControlTakes(was: seq<bool>, value: seq<bool>, b: nat)
    requires |was| == |value| == 32 && b < 32
    ensures Control(was, value)[b] ==
      if b == 0 || b == 2 || b == 7 || 12 <= b <= 19 then value[b] else 3 <= b <= 6 || was[b]
  {
  }

  /** After any writes the last one to each register stands. */
  lemma {:induction false} LastStands(r: Regs, ws: seq<Write>, i: nat, n: nat)
    requires r.Ok() && AllOk(ws) && n <= |ws| && LastTo(ws, i, n)
    ensures Stands(WrittenAll(r, ws, n), ws[i])
  {
    assert ws[i] in ws;
    if i < n - 1 {
      LastStands(r, ws, i, n - 1);
      assert !SamePlace(ws[i], ws[n - 1]);
    } else if ws[i].ToControl? {
      var before := WrittenAll(r, ws, i);
      ControlTakes(before.ctl, ws[i].bits, 0);
      ControlTakes(before.ctl, ws[i].bits, 2);
      ControlTakes(before.ctl, ws[i].bits, 12);
    }
  }
}
