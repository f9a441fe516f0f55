/** The cartridge image and its page overlay (src/core/cart/rom_source.cpp, rom_source.h). */
module RomSource {
  import opened Basics

  const PAGE := 0x1000

  datatype Patch<B> = Patch(base: int, bytes: seq<B>)

  predicate PowerOfTwo(m: nat)
  {
    m == 1 || (m > 1 && m % 2 == 0 && PowerOfTwo(m / 2))
  }

  /** The patch serving page p, from overlay entry k on. */
  function Find<B>(overlay: seq<Patch<B>>, p: int, k: nat): (i: nat)
    requires k <= |overlay|
    ensures k <= i <= |overlay| && (i < |overlay| ==> overlay[i].base == p)
    ensures forall j | k <= j < i :: overlay[j].base != p
    decreases |overlay| - k
  {
    if k == |overlay| || overlay[k].base == p then k else Find(overlay, p, k + 1)
  }

  /** The page base a read of addr goes to. */
  function Base(addr: nat, span: nat): int
    requires span > 0
  {
    addr % span - addr % PAGE
  }

  lemma ModOfMultiple(q: nat, r: nat)
    ensures (q * PAGE + r) % PAGE == r % PAGE
  {
    assert (q * PAGE + r) / PAGE == q + r / PAGE;
  }

  lemma MulAssoc(d: nat, q: nat)
    ensures d * (q * PAGE) == (d * q) * PAGE
  {
  }

  lemma ModTwice(addr: nat, span: nat)
    requires span > 0 && span % PAGE == 0
    ensures addr % span % PAGE == addr % PAGE
  {
    var q, d, r := span / PAGE, addr / span, addr % span;
    assert span == q * PAGE;
    MulAssoc(d, q);
    ModOfMultiple(d * q, r);
  }

  lemma BaseIsPage(addr: nat, span: nat)
    requires span > 0 && span % PAGE == 0
    ensures 0 <= Base(addr, span) && Base(addr, span) % PAGE == 0 && Base(addr, span) + PAGE <= span
  {
    ModTwice(addr, span);
    var a := addr % span;
    assert Base(addr, span) == a / PAGE * PAGE;
    assert a / PAGE < span / PAGE;
  }

  /** Bytes within one page share its base. */
  lemma SamePage(addr: nat, j: nat, span: nat)
    requires span > 0 && span % PAGE == 0 && addr % PAGE + j < PAGE
    ensures Base(addr + j, span) == Base(addr, span) && (addr + j) % PAGE == addr % PAGE + j
  {
    BaseIsPage(addr, span);
    var a := addr % span;
    ModTwice(addr, span);
    assert a + j < span;
    ModPlus(addr, j, span);
    ModPlus(addr, j, PAGE);
  }

  lemma ModPlus(x: nat, j: nat, m: nat)
    requires m > 0 && x % m + j < m
    ensures (x + j) % m == x % m + j
  {
    var q := x / m;
    assert x + j == q * m + (x % m + j);
    DivModUnique(x + j, m, q, x % m + j);
  }

  lemma {:induction false} FindAppended<B>(overlay: seq<Patch<B>>, n: Patch<B>, p: int, k: nat)
    requires k <= |overlay|
    ensures Find(overlay + [n], p, k) ==
      if Find(overlay, p, k) < |overlay| then Find(overlay, p, k) else if n.base == p then |overlay| else |overlay| + 1
    decreases |overlay| - k
  {
    if k < |overlay| {
      FindAppended(overlay, n, p, k + 1);
    }
  }

  lemma {:induction false} SameBases<B>(u: seq<Patch<B>>, v: seq<Patch<B>>, p: int, k: nat)
    requires |u| == |v| && k <= |u| && forall j | 0 <= j < |u| :: u[j].base == v[j].base
    ensures Find(u, p, k) == Find(v, p, k)
    decreases |u| - k
  {
    if k < |u| {
      SameBases(u, v, p, k + 1);
    }
  }

  /** Counting on within a page does not wrap at the span. */
  lemma WithinPage(addr: nat, j: nat, span: nat)
    requires span > 0 && span % PAGE == 0 && addr % PAGE + j < PAGE
    ensures (addr + j) % span == addr % span + j
  {
    SamePage(addr, j, span);
  }

  /** The smallest power of two no smaller than a page and n. */
  method LeastSpan(n: nat) returns (m: nat)
    ensures m >= PAGE && m % PAGE == 0 && m >= n && PowerOfTwo(m) && (m == PAGE || m / 2 < n)
  {
    m := PAGE;
    assert PowerOfTwo(8) && PowerOfTwo(64) && PowerOfTwo(512);
    while m < n
      invariant m >= PAGE && m % PAGE == 0 && PowerOfTwo(m) && (m == PAGE || m / 2 < n)
      decreases n - m
    {
      m := m * 2;
    }
  }

  class Image<B(==)> {
    const data: seq<B>      // the file's bytes
    const blank: B          // what lies past them
    var span: nat           // padded power-of-two size
    var tail: seq<B>        // the last, partial page, blank past the end
    var overlay: seq<Patch<B>>

    ghost predicate Valid()
      reads this
    {
      && span >= PAGE && span % PAGE == 0 && span >= |data|
      && (|data| % PAGE != 0 ==>
            |tail| == PAGE && forall k | 0 <= k < PAGE :: tail[k] == Raw(|data| - |data| % PAGE + k))
      && forall p | p in overlay :: |p.bytes| == PAGE
    }

    /** The image's byte at a masked address. */
    function Raw(a: int): B { if 0 <= a < |data| then data[a] else blank }

    /** Byte k of the page at p: from its patch, or the image. */
    function PageByte(p: int, k: nat): B
      requires Valid() && k < PAGE
      reads this
    {
      var i := Find(overlay, p, 0);
      if i < |overlay| then overlay[i].bytes[k] else Raw(p + k)
    }

    /** What a read finds at an address. */
    function View(addr: nat): B
      requires Valid()
      reads this
    {
      PageByte(Base(addr, span), addr % PAGE)
    }

    /** `finish`: the span is the smallest power of two no smaller than a page and the image. */
    constructor (data: seq<B>, blank: B)
      ensures Valid() && this.data == data && this.blank == blank && overlay == []
      ensures PowerOfTwo(span) && (span == PAGE || span / 2 < |data|)
    {
      this.data, this.blank, overlay := data, blank, [];
      span := PAGE;
      tail := [];
      new;
      span := LeastSpan(|data|);
      var rem := |data| % PAGE;
      if rem != 0 {
        tail := data[|data| - rem..] + seq(PAGE - rem, _ => blank);
      }
    }

    /** `page_unpatched`. */
    method PageUnpatched(p: nat) returns (bytes: seq<B>)
      requires Valid() && p % PAGE == 0
      ensures |bytes| == PAGE && forall k | 0 <= k < PAGE :: bytes[k] == Raw(p + k)
    {
      if p + PAGE <= |data| {
        bytes := data[p..p + PAGE];
      } else if p < |data| {
        LastPage(p);
        bytes := tail;
      } else {
        bytes := seq(PAGE, _ => blank);
      }
    }

    lemma LastPage(p: nat)
      requires p % PAGE == 0 && p < |data| < p + PAGE
      ensures |data| % PAGE != 0 && |data| - |data| % PAGE == p
    {
      ModOfMultiple(p / PAGE, |data| - p);
    }

    /** The overlay's entry for page p, or its length. */
    method FindPatch(p: int) returns (i: nat)
      ensures i == Find(overlay, p, 0)
    {
      i := 0;
      while i < |overlay| && overlay[i].base != p
        invariant i <= |overlay| && Find(overlay, p, 0) == Find(overlay, p, i)
      {
        i := i + 1;
      }
    }

    /** `page`. */
    method Page(addr: nat) returns (bytes: seq<B>)
      requires Valid()
      ensures |bytes| == PAGE && forall k | 0 <= k < PAGE :: bytes[k] == PageByte(Base(addr, span), k)
    {
      BaseIsPage(addr, span);
      var p := addr % span - addr % PAGE;
      var i := FindPatch(p);
      if i < |overlay| {
        assert overlay[i] in overlay;
        bytes := overlay[i].bytes;
      } else {
        bytes := PageUnpatched(p);
      }
    }

    /** The page an address is in, and the offset in it. */
    method PageFrom(at: nat) returns (pg: seq<B>, off: nat)
      requires Valid()
      ensures |pg| == PAGE && off < PAGE && off <= at && forall x | off <= x < PAGE :: pg[x] == View(at - off + x)
    {
      pg := Page(at);
      off := at % PAGE;
      forall x | off <= x < PAGE
        ensures pg[x] == View(at - off + x)
      {
        ViewOnPage(at, x);
      }
    }

    lemma ViewOnPage(at: nat, x: nat)
      requires Valid() && at % PAGE <= x < PAGE
      ensures View(at - at % PAGE + x) == PageByte(Base(at, span), x)
    {
      var j := x - at % PAGE;
      SamePage(at, j, span);
      assert at - at % PAGE + x == at + j;
    }

    /** `read`: across pages, wrapping at the span. */
    method Read(addr: nat, n: nat) returns (dst: seq<B>)
      requires Valid()
      ensures |dst| == n && forall k | 0 <= k < n :: dst[k] == View(addr + k)
    {
      dst := [];
      while |dst| < n
        invariant |dst| <= n && forall k | 0 <= k < |dst| :: dst[k] == View(addr + k)
        decreases n - |dst|
      {
        var at := addr + |dst|;
        var pg, off := PageFrom(at);
        var take := if n - |dst| < PAGE - off then n - |dst| else PAGE - off;
        dst := Appended(addr, dst, pg, off, take);
      }
    }

    /** One page's share of a read. */
    method Appended(addr: nat, dst: seq<B>, pg: seq<B>, off: nat, take: nat) returns (r: seq<B>)
      requires Valid() && |pg| == PAGE && off + take <= PAGE
      requires forall k | 0 <= k < |dst| :: dst[k] == View(addr + k)
      requires off <= addr + |dst| && forall x | off <= x < off + take :: pg[x] == View(addr + |dst| - off + x)
      ensures |r| == |dst| + take && forall k | 0 <= k < |r| :: r[k] == View(addr + k)
    {
      r := dst + pg[off..off + take];
      forall k | |dst| <= k < |r|
        ensures r[k] == View(addr + k)
      {
        var x := off + k - |dst|;
        assert r[k] == pg[x] && addr + |dst| - off + x == addr + k;
      }
    }

    /** `read_unpatched`: the image itself, whatever is patched, and how much of it was there. */
    method ReadUnpatched(addr: nat, n: nat) returns (dst: seq<B>, have: nat)
      requires Valid()
      ensures |dst| == n && forall k | 0 <= k < n :: dst[k] == Raw((addr + k) % span)
      ensures have == if addr % span >= |data| then 0 else if n < |data| - addr % span then n else |data| - addr % span
    {
      var start := addr % span;
      have := if start >= |data| then 0 else if n < |data| - start then n else |data| - start;
      dst := [];
      while |dst| < n
        invariant |dst| <= n && forall k | 0 <= k < |dst| :: dst[k] == Raw((addr + k) % span)
        decreases n - |dst|
      {
        var at := addr + |dst|;
        BaseIsPage(at, span);
        var pg := PageUnpatched(at % span - at % PAGE);
        var off := at % PAGE;
        var take := if n - |dst| < PAGE - off then n - |dst| else PAGE - off;
        dst := AppendedRaw(addr, dst, pg, take);
      }
    }

    /** One page's share of an unpatched read. */
    method AppendedRaw(addr: nat, dst: seq<B>, pg: seq<B>, take: nat) returns (r: seq<B>)
      requires Valid() && |pg| == PAGE && (addr + |dst|) % PAGE + take <= PAGE
      requires forall k | 0 <= k < |dst| :: dst[k] == Raw((addr + k) % span)
      requires forall k | 0 <= k < PAGE :: pg[k] == Raw((addr + |dst|) % span - (addr + |dst|) % PAGE + k)
      ensures |r| == |dst| + take && forall k | 0 <= k < |r| :: r[k] == Raw((addr + k) % span)
    {
      var at := addr + |dst|;
      var off := at % PAGE;
      r := dst + pg[off..off + take];
      forall k | |dst| <= k < |r|
        ensures r[k] == Raw((addr + k) % span)
      {
        WithinPage(at, k - |dst|, span);
        assert r[k] == pg[off + (k - |dst|)];
      }
    }

    /** `patch`: a copy of the page holding addr joins the overlay, unless one is there; nothing a
        read finds changes. */
    method PatchPage(addr: nat) returns (i: nat)
      requires Valid()
      modifies this`overlay
      ensures Valid() && i < |overlay| && i == Find(overlay, Base(addr, span), 0)
      ensures forall a: nat :: View(a) == old(View(a))
    {
      var p := addr % span - addr % PAGE;
      i := FindPatch(p);
      if i == |overlay| {
        BaseIsPage(addr, span);
        var bytes := PageUnpatched(p);
        FindAppended(overlay, Patch(p, bytes), p, 0);
        overlay := overlay + [Patch(p, bytes)];
        forall a: nat
          ensures View(a) == old(View(a))
        {
          FindAppended(old(overlay), Patch(p, bytes), Base(a, span), 0);
        }
      }
    }

    /** Bytes written through the pointer `patch` returns. */
    method Poke(addr: nat, i: nat, s: seq<B>)
      requires Valid() && i < |overlay| && i == Find(overlay, Base(addr, span), 0) && addr % PAGE + |s| <= PAGE
      modifies this`overlay
      ensures Valid() && i < |overlay| && i == Find(overlay, Base(addr, span), 0)
      ensures forall k | 0 <= k < |s| :: View(addr + k) == s[k]
      ensures forall a: nat | !(Base(a, span) == Base(addr, span) && addr % PAGE <= a % PAGE < addr % PAGE + |s|) ::
        View(a) == old(View(a))
    {
      var off := addr % PAGE;
      var b := overlay[i].bytes;
      assert overlay[i] in overlay;
      ghost var before := overlay;
      overlay := overlay[i := overlay[i].(bytes := b[..off] + s + b[off + |s|..])];
      forall p: int
        ensures Find(overlay, p, 0) == Find(before, p, 0)
      {
        SameBases(before, overlay, p, 0);
      }
      forall k | 0 <= k < |s|
        ensures View(addr + k) == s[k]
      {
        SamePage(addr, k, span);
      }
    }
  }
}
