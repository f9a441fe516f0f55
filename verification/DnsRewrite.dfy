/** The DNS redirection of the slirp driver (src/net/slirp_driver.cpp): an address in an IPv4/UDP
    frame rewritten in place, its two checksums patched to match. */
module DnsRewrite {
  import opened Basics
  import opened Checksum

  const IP := 14         // offset of the IPv4 header in the frame
  const DNS := 53

  /** Which field of the frame is rewritten: the port that must be 53, the address. */
  datatype Field = Destination | Source
  {
    function Port(): nat { if Destination? then 2 else 0 }
    function Address(): nat { if Destination? then 16 else 12 }
  }

  /** `udp_view`: the offset of the UDP header, if the frame is an unfragmented IPv4/UDP datagram. */
  function UdpAt(s: seq<nat>): (u: Option<nat>)
    ensures u.Some? ==>
      |s| >= 42 && IP + 20 <= u.value && u.value + 8 <= |s| && (u.value - IP) % 4 == 0 && s[IP] / 16 == 4
  {
    if |s| < 14 + 20 + 8 || WordAt(s, 12) != 0x0800 || s[IP] / 16 != 4 then None
    else
      var ihl := s[IP] % 16 * 4;
      if ihl < 20 || IP + ihl + 8 > |s| || s[IP + 9] != 17 || WordAt(s, IP + 6) % 0x2000 != 0 then None
      else Some(IP + ihl)
  }

  function AddressAt(s: seq<nat>, at: nat): nat
    requires at + 4 <= |s|
  {
    WordAt(s, at) * 0x10000 + WordAt(s, at + 2)
  }

  /** Whether the rewrite applies, and to what UDP header. */
  function Applies(s: seq<nat>, f: Field, from: nat): Option<nat>
  {
    var u := UdpAt(s);
    if u.None? || WordAt(s, u.value + f.Port()) != DNS || AddressAt(s, IP + f.Address()) != from then None else u
  }

  /** The frames of a datagram, byte by byte: type 0800, version 4 with a header of five words or more
      that leaves room for eight bytes, protocol 17, fragment offset zero. */
  ghost predicate Datagram(s: seq<nat>, u: nat) {
    && |s| >= 42 && s[12] == 8 && s[13] == 0 && 0x45 <= s[14] <= 0x4F && s[23] == 17 && s[20] % 32 == 0 && s[21] == 0
    && u == 14 + 4 * (s[14] - 0x40) && u + 8 <= |s|
  }

  /** Four bytes of a frame, the highest first. */
  ghost predicate Spells(s: seq<nat>, at: nat, a: nat) {
    && at + 4 <= |s| && s[at] == a / 0x100_0000 && s[at + 1] == a / 0x1_0000 % 256
    && s[at + 2] == a / 256 % 256 && s[at + 3] == a % 256
  }

  lemma UdpAtExactly(s: seq<nat>, u: nat)
    requires Octets(s)
    ensures UdpAt(s) == Some(u) <==> Datagram(s, u)
  {
    if |s| >= 42 {
      assert (s[20] * 256 + s[21]) % 0x2000 == s[20] % 32 * 256 + s[21];
      assert s[14] == s[14] / 16 * 16 + s[14] % 16;
    }
  }

  lemma SpellsAddress(s: seq<nat>, at: nat, a: nat)
    requires Octets(s) && at + 4 <= |s| && a < 0x1_0000_0000
    ensures AddressAt(s, at) == a <==> Spells(s, at, a)
  {
    FourBytes(s[at], s[at + 1], s[at + 2], s[at + 3]);
    SumOfBytes(a);
  }

  lemma FourBytes(p: nat, q: nat, r: nat, t: nat)
    requires p < 256 && q < 256 && r < 256 && t < 256
    ensures var v := (p * 256 + q) * 0x10000 + (r * 256 + t);
      v / 0x100_0000 == p && v / 0x1_0000 % 256 == q && v / 256 % 256 == r && v % 256 == t
  {
    var y := p * 256 + q;
    var x := y * 256 + r;
    var v := x * 256 + t;
    DivModUnique(v, 256, x, t);
    DivModUnique(x, 256, y, r);
    DivModUnique(y, 256, p, q);
    DivModUnique(v, 0x1_0000, y, r * 256 + t);
    DivModUnique(v, 0x100_0000, p, (q * 256 + r) * 256 + t);
  }

  lemma SumOfBytes(a: nat)
    ensures a == a / 0x100_0000 * 0x100_0000 + a / 0x1_0000 % 256 * 0x1_0000 + a / 256 % 256 * 256 + a % 256
  {
  }

  /** A query is redirected exactly in a datagram to port 53 whose destination, at byte 30, is the
      address; a reply exactly in one from port 53 whose source, at byte 26, is. */
  lemma AppliesExactly(s: seq<nat>, from: nat, u: nat)
    requires Octets(s) && from < 0x1_0000_0000
    ensures Applies(s, Destination, from) == Some(u) <==>
      Datagram(s, u) && s[u + 2] == 0 && s[u + 3] == 53 && Spells(s, 30, from)
    ensures Applies(s, Source, from) == Some(u) <==>
      Datagram(s, u) && s[u] == 0 && s[u + 1] == 53 && Spells(s, 26, from)
  {
    UdpAtExactly(s, u);
    if Datagram(s, u) {
      SpellsAddress(s, 30, from);
      SpellsAddress(s, 26, from);
    }
  }

  /** The UDP checksum after a rewrite: zero, which says that there is none, stays. */
  function UdpPatched(c: nat, from: nat, to: nat): (r: nat)
    requires c <= M && from < 0x1_0000_0000 && to < 0x1_0000_0000
    ensures r <= M
  {
    if c == 0 then 0 else Patched(c, from, to)
  }

  /** The frame rewritten, at UDP header udp. */
  function Rewritten(s: seq<nat>, f: Field, udp: nat, from: nat, to: nat): (r: seq<nat>)
    requires Octets(s) && |s| >= 42 && IP + 20 <= udp && udp + 8 <= |s| && from < 0x1_0000_0000 && to < 0x1_0000_0000
    ensures |r| == |s|
  {
    var s1 := Stored(s, IP + 10, Patched(WordAt(s, IP + 10), from, to));
    var s2 := Stored(s1, udp + 6, UdpPatched(WordAt(s, udp + 6), from, to));
    var s3 := Stored(s2, IP + f.Address(), to / 0x10000);
    Stored(s3, IP + f.Address() + 2, to % 0x10000)
  }

  method StoreWord(frame: array<nat>, at: nat, w: nat)
    requires at + 2 <= frame.Length && w <= M
    modifies frame
    ensures frame[..] == Stored(old(frame[..]), at, w)
  {
    frame[at] := w / 256;
    frame[at + 1] := w % 256;
  }

  lemma StoredSame(s: seq<nat>, at: nat)
    requires Octets(s) && at + 2 <= |s|
    ensures Stored(s, at, WordAt(s, at)) == s
  {
    assert (s[at] * 256 + s[at + 1]) / 256 == s[at];
  }

  /** `rewrite_dns_dst` and `rewrite_dns_src`. */
  method Rewrite(frame: array<nat>, f: Field, from: nat, to: nat) returns (done: bool)
    requires Octets(frame[..]) && from < 0x1_0000_0000 && to < 0x1_0000_0000
    modifies frame
    ensures done == Applies(old(frame[..]), f, from).Some?
    ensures done ==> frame[..] == Rewritten(old(frame[..]), f, Applies(old(frame[..]), f, from).value, from, to)
    ensures !done ==> frame[..] == old(frame[..])
  {
    ghost var s := frame[..];
    var u := Applies(frame[..], f, from);
    if u.None? {
      return false;
    }
    var udp := u.value;
    var c := ChecksumPatch(WordAt(frame[..], IP + 10), from, to);
    var udpSum := WordAt(frame[..], udp + 6);
    StoreWord(frame, IP + 10, c);
    ghost var s1 := frame[..];
    if udpSum != 0 {
      var d := ChecksumPatch(udpSum, from, to);
      StoreWord(frame, udp + 6, d);
    } else {
      assert WordAt(s1, udp + 6) == 0;
      StoredSame(s1, udp + 6);
    }
    StoreWord(frame, IP + f.Address(), to / 0x10000);
    StoreWord(frame, IP + f.Address() + 2, to % 0x10000);
    return true;
  }

  // ---- checksums still verify ---------------------------------------------------------------------

  /** The IPv4 header's words added up. */
  function HeaderTotal(s: seq<nat>, udp: nat): nat
    requires IP <= udp <= |s|
  {
    WordSum(s, IP, (udp - IP) / 2)
  }

  /** The UDP sum: the addresses of the pseudo header, the UDP header, and the rest of both. */
  function UdpTotal(s: seq<nat>, udp: nat, rest: nat): nat
    requires |s| >= 42 && udp + 8 <= |s|
  {
    WordSum(s, IP + 12, 4) + WordSum(s, udp, 4) + rest
  }

  /** One address swapped for another and a checksum patched leave a sum congruent. */
  lemma PatchBalances(total: nat, after: int, c: nat, from: nat, to: nat)
    requires c <= M && from < 0x1_0000_0000 && to < 0x1_0000_0000
    requires after == total - c + Patched(c, from, to) - Halves(from) + Halves(to)
    ensures Same(total, after)
  {
    PatchedMakesUp(c, from, to);
    var d := Patched(c, from, to) + Halves(to) - (c + Halves(from));
    assert after - total == d;
    Multiple(total - after, -(d / M));
  }

  lemma AddressWords(s: seq<nat>, at: nat, from: nat)
    requires Octets(s) && at + 4 <= |s| && AddressAt(s, at) == from
    ensures WordAt(s, at) == from / 0x10000 && WordAt(s, at + 2) == from % 0x10000
  {
  }

  lemma OtherWord(s: seq<nat>, x: nat, w: nat, at: nat)
    requires x + 2 <= |s| && at + 2 <= |s| && w <= M && (x + 2 <= at || at + 2 <= x)
    ensures WordAt(Stored(s, x, w), at) == WordAt(s, at)
  {
  }

  /** An address stored into a sum it is in. */
  lemma AddressStored(s: seq<nat>, base: nat, n: nat, k: nat, from: nat, to: nat)
    requires base + 2 * n <= |s| && k + 1 < n && from < 0x1_0000_0000 && to < 0x1_0000_0000
    requires WordAt(s, base + 2 * k) == from / 0x10000 && WordAt(s, base + 2 * k + 2) == from % 0x10000
    ensures WordSum(Stored(Stored(s, base + 2 * k, to / 0x10000), base + 2 * k + 2, to % 0x10000), base, n)
         == WordSum(s, base, n) - Halves(from) + Halves(to)
  {
    SumStored(s, base, n, k, to / 0x10000);
    OtherWord(s, base + 2 * k, to / 0x10000, base + 2 * k + 2);
    SumStored(Stored(s, base + 2 * k, to / 0x10000), base, n, k + 1, to % 0x10000);
  }

  /** The two checksums stored: the address is still in place. */
  lemma SumsStored(s: seq<nat>, udp: nat, at: nat, from: nat, p: nat, q: nat)
    requires Octets(s) && |s| >= 42 && IP + 20 <= udp && udp + 8 <= |s| && IP + 12 <= at <= IP + 16 && p <= M && q <= M
    requires AddressAt(s, at) == from
    ensures var s2 := Stored(Stored(s, IP + 10, p), udp + 6, q);
      WordAt(s2, at) == from / 0x10000 && WordAt(s2, at + 2) == from % 0x10000
  {
    AddressWords(s, at, from);
    var s1 := Stored(s, IP + 10, p);
    OtherWord(s, IP + 10, p, at);
    OtherWord(s, IP + 10, p, at + 2);
    OtherWord(s1, udp + 6, q, at);
    OtherWord(s1, udp + 6, q, at + 2);
  }

  lemma HeaderSums(s: seq<nat>, udp: nat, p: nat, q: nat)
    requires |s| >= 42 && IP + 20 <= udp && udp + 8 <= |s| && (udp - IP) % 4 == 0 && p <= M && q <= M
    ensures WordSum(Stored(Stored(s, IP + 10, p), udp + 6, q), IP, (udp - IP) / 2)
         == HeaderTotal(s, udp) - WordAt(s, IP + 10) + p
  {
    var n := (udp - IP) / 2;
    SumStored(s, IP, n, 5, p);
    SumElsewhere(Stored(s, IP + 10, p), IP, n, udp + 6, q);
  }

  /** The IPv4 header's sum after a rewrite. */
  lemma HeaderAfter(s: seq<nat>, f: Field, udp: nat, from: nat, to: nat)
    requires Octets(s) && Applies(s, f, from) == Some(udp) && from < 0x1_0000_0000 && to < 0x1_0000_0000
    ensures var c := WordAt(s, IP + 10);
      HeaderTotal(Rewritten(s, f, udp, from, to), udp)
        == HeaderTotal(s, udp) - c + Patched(c, from, to) - Halves(from) + Halves(to)
  {
    var n, k := (udp - IP) / 2, f.Address() / 2;
    var p, q := Patched(WordAt(s, IP + 10), from, to), UdpPatched(WordAt(s, udp + 6), from, to);
    HeaderSums(s, udp, p, q);
    SumsStored(s, udp, IP + f.Address(), from, p, q);
    AddressStored(Stored(Stored(s, IP + 10, p), udp + 6, q), IP, n, k, from, to);
  }

  lemma UdpSums(s: seq<nat>, udp: nat, p: nat, q: nat)
    requires |s| >= 42 && IP + 20 <= udp && udp + 8 <= |s| && p <= M && q <= M
    ensures var s2 := Stored(Stored(s, IP + 10, p), udp + 6, q);
      && WordSum(s2, IP + 12, 4) == WordSum(s, IP + 12, 4)
      && WordSum(s2, udp, 4) == WordSum(s, udp, 4) - WordAt(s, udp + 6) + q
  {
    var s1 := Stored(s, IP + 10, p);
    SumElsewhere(s, IP + 12, 4, IP + 10, p);
    SumElsewhere(s, udp, 4, IP + 10, p);
    SumElsewhere(s1, IP + 12, 4, udp + 6, q);
    OtherWord(s, IP + 10, p, udp + 6);
    SumStored(s1, udp, 4, 3, q);
  }

  lemma UdpHeaderKept(s: seq<nat>, udp: nat, at: nat, u: nat, v: nat)
    requires at + 4 <= udp && udp + 8 <= |s| && u <= M && v <= M
    ensures WordSum(Stored(Stored(s, at, u), at + 2, v), udp, 4) == WordSum(s, udp, 4)
  {
    SumElsewhere(s, udp, 4, at, u);
    SumElsewhere(Stored(s, at, u), udp, 4, at + 2, v);
  }

  /** The UDP sum after a rewrite. */
  lemma UdpAfter(s: seq<nat>, f: Field, udp: nat, from: nat, to: nat, rest: nat)
    requires Octets(s) && Applies(s, f, from) == Some(udp) && from < 0x1_0000_0000 && to < 0x1_0000_0000
    ensures var c := WordAt(s, udp + 6);
      UdpTotal(Rewritten(s, f, udp, from, to), udp, rest)
        == UdpTotal(s, udp, rest) - c + UdpPatched(c, from, to) - Halves(from) + Halves(to)
  {
    var k := (f.Address() - 12) / 2;
    var p, q := Patched(WordAt(s, IP + 10), from, to), UdpPatched(WordAt(s, udp + 6), from, to);
    var s2 := Stored(Stored(s, IP + 10, p), udp + 6, q);
    UdpSums(s, udp, p, q);
    SumsStored(s, udp, IP + f.Address(), from, p, q);
    AddressStored(s2, IP + 12, 4, k, from, to);
    UdpHeaderKept(s2, udp, IP + f.Address(), to / 0x10000, to % 0x10000);
  }

  // ---- main results -----------------------------------------------------------------------------

  /** An IPv4 header that verifies still does after a rewrite. */
  lemma HeaderStillVerifies(s: seq<nat>, f: Field, udp: nat, from: nat, to: nat)
    requires Octets(s) && Applies(s, f, from) == Some(udp) && from < 0x1_0000_0000 && to < 0x1_0000_0000
    requires Verifies(HeaderTotal(s, udp))
    ensures Verifies(HeaderTotal(Rewritten(s, f, udp, from, to), udp))
  {
    var t := Rewritten(s, f, udp, from, to);
    HeaderAfter(s, f, udp, from, to);
    PatchBalances(HeaderTotal(s, udp), HeaderTotal(t, udp), WordAt(s, IP + 10), from, to);
    FirstWordCounts(t, IP, (udp - IP) / 2);
    assert t[IP] == s[IP];
    StillVerifies(HeaderTotal(s, udp), HeaderTotal(t, udp));
  }

  lemma {:induction false} FirstWordCounts(s: seq<nat>, at: nat, n: nat)
    requires n > 0 && at + 2 * n <= |s|
    ensures WordSum(s, at, n) >= s[at]
  {
    if n > 1 {
      FirstWordCounts(s, at, n - 1);
    }
  }

  /** A UDP checksum that verifies still does after a rewrite, even one that has become zero, which
      a receiver takes for none. The rest of the sum holds the protocol and the length, so it is not
      zero. */
  lemma UdpStillVerifies(s: seq<nat>, f: Field, udp: nat, from: nat, to: nat, rest: nat)
    requires Octets(s) && Applies(s, f, from) == Some(udp) && from < 0x1_0000_0000 && to < 0x1_0000_0000
    requires rest > 0 && WordAt(s, udp + 6) != 0 && Verifies(UdpTotal(s, udp, rest))
    ensures Verifies(UdpTotal(Rewritten(s, f, udp, from, to), udp, rest))
  {
    var t := Rewritten(s, f, udp, from, to);
    UdpAfter(s, f, udp, from, to, rest);
    PatchBalances(UdpTotal(s, udp, rest), UdpTotal(t, udp, rest), WordAt(s, udp + 6), from, to);
    StillVerifies(UdpTotal(s, udp, rest), UdpTotal(t, udp, rest));
  }

  /** Patched out and back, the IPv4 checksum is congruent to what it was. */
  lemma HeaderOutAndBack(c: nat, from: nat, to: nat)
    requires c <= M && from < 0x1_0000_0000 && to < 0x1_0000_0000
    ensures Same(Patched(Patched(c, from, to), to, from), c)
  {
    PatchedMakesUp(c, from, to);
    PatchedMakesUp(Patched(c, from, to), to, from);
    var d, e := Patched(c, from, to), Patched(Patched(c, from, to), to, from);
    SameShifted(d + Halves(to), c + Halves(from), e + Halves(from));
  }

  lemma SameShifted(d: int, c: int, e: int)
    requires Same(d, c) && Same(e, d)
    ensures Same(e, c)
  {
  }

  /** Patched out and back, the UDP checksum is congruent to what it was, unless the way out made a
      zero of one that is not congruent to it: the way back takes that for no checksum. */
  lemma UdpOutAndBack(c: nat, from: nat, to: nat)
    requires c <= M && from < 0x1_0000_0000 && to < 0x1_0000_0000
    ensures Same(UdpPatched(UdpPatched(c, from, to), to, from), c) <==> !(0 < c < M && Patched(c, from, to) == 0)
  {
    HeaderOutAndBack(c, from, to);
  }

  /** Such a checksum, its address changed by one. */
  lemma UdpZeroExample()
    ensures Patched(1, 1, 2) == 0 && !Same(UdpPatched(UdpPatched(1, 1, 2), 2, 1), 1)
  {
    assert Sum(1, 1, 2) == 3 * M;
    assert Fold(Sum(1, 1, 2)) == M;
  }

  /** A rewrite moves the address and leaves the other address, the ports and the payload alone. */
  lemma RewriteMoves(s: seq<nat>, f: Field, udp: nat, from: nat, to: nat)
    requires Octets(s) && Applies(s, f, from) == Some(udp) && from < 0x1_0000_0000 && to < 0x1_0000_0000
    ensures var t := Rewritten(s, f, udp, from, to); AddressAt(t, IP + f.Address()) == to && UdpAt(t) == Some(udp)
    ensures forall k | 0 <= k < |s| && !(IP + 10 <= k < IP + 12) && !(udp + 6 <= k < udp + 8)
                       && !(IP + f.Address() <= k < IP + f.Address() + 4) ::
      Rewritten(s, f, udp, from, to)[k] == s[k]
  {
  }

  /** The bytes a rewrite leaves: the new address at 30 or 26, the header checksum at 24, the UDP one six
      bytes into its header, and everything else as it was. */
  lemma RewrittenBytes(s: seq<nat>, f: Field, udp: nat, from: nat, to: nat)
    requires Octets(s) && Applies(s, f, from) == Some(udp) && from < 0x1_0000_0000 && to < 0x1_0000_0000
    ensures var t, at := Rewritten(s, f, udp, from, to), if f.Destination? then 30 else 26;
      && Spells(t, at, to)
      && forall k | 0 <= k < |s| && !(24 <= k < 26) && !(udp + 6 <= k < udp + 8) && !(at <= k < at + 4) :: t[k] == s[k]
  {
    var at := IP + f.Address();
    RewriteMoves(s, f, udp, from, to);
    SumsAfter(s, f, udp, from, to);
    SpellsAddress(Rewritten(s, f, udp, from, to), at, to);
  }

  lemma StoredOctets(s: seq<nat>, at: nat, w: nat)
    requires Octets(s) && at + 2 <= |s| && w <= M
    ensures Octets(Stored(s, at, w)) && WordAt(Stored(s, at, w), at) == w
  {
  }

  /** The checksums a rewrite leaves. */
  lemma SumsAfter(s: seq<nat>, f: Field, udp: nat, from: nat, to: nat)
    requires Octets(s) && Applies(s, f, from) == Some(udp) && from < 0x1_0000_0000 && to < 0x1_0000_0000
    ensures var t := Rewritten(s, f, udp, from, to);
      && Octets(t) && WordAt(t, IP + 10) == Patched(WordAt(s, IP + 10), from, to)
      && WordAt(t, udp + 6) == UdpPatched(WordAt(s, udp + 6), from, to)
  {
    var p, q, at := Patched(WordAt(s, IP + 10), from, to), UdpPatched(WordAt(s, udp + 6), from, to), IP + f.Address();
    var s1 := Stored(s, IP + 10, p);
    var s2 := Stored(s1, udp + 6, q);
    var s3 := Stored(s2, at, to / 0x10000);
    StoredOctets(s, IP + 10, p);
    StoredOctets(s1, udp + 6, q);
    StoredOctets(s2, at, to / 0x10000);
    StoredOctets(s3, at + 2, to % 0x10000);
    OtherWord(s1, udp + 6, q, IP + 10);
    OtherWord(s2, at, to / 0x10000, IP + 10);
    OtherWord(s3, at + 2, to % 0x10000, IP + 10);
    OtherWord(s2, at, to / 0x10000, udp + 6);
    OtherWord(s3, at + 2, to % 0x10000, udp + 6);
  }

  /** A rewritten frame may be rewritten back. */
  lemma BackApplies(s: seq<nat>, f: Field, udp: nat, from: nat, to: nat)
    requires Octets(s) && Applies(s, f, from) == Some(udp) && from < 0x1_0000_0000 && to < 0x1_0000_0000
    ensures Applies(Rewritten(s, f, udp, from, to), f, to) == Some(udp)
  {
    RewriteMoves(s, f, udp, from, to);
  }

  lemma SameWord(c: nat, d: nat)
    requires Same(c, d) && 0 < d < M && c <= M
    ensures c == d
  {
  }

  /** A frame rewritten and rewritten back applies both times and has its address, and every byte
      outside the two checksums, as before. The IPv4 checksum is congruent to what it was, and
      the same unless it was one of the two zeros; the UDP checksum is congruent to what it was
      if and only if the way out did not make a zero of a checksum other than those two. */
  lemma FrameOutAndBack(s: seq<nat>, f: Field, udp: nat, from: nat, to: nat)
    requires Octets(s) && Applies(s, f, from) == Some(udp) && from < 0x1_0000_0000 && to < 0x1_0000_0000
    ensures var t := Rewritten(s, f, udp, from, to);
      Octets(t) && Applies(t, f, to) == Some(udp)
      && var b := Rewritten(t, f, udp, to, from);
         && Applies(b, f, from) == Some(udp) && Restored(s, b, udp)
         && var c, d := WordAt(s, IP + 10), WordAt(s, udp + 6);
            && Same(WordAt(b, IP + 10), c) && (0 < c < M ==> WordAt(b, IP + 10) == c)
            && (Same(WordAt(b, udp + 6), d) <==> !(0 < d < M && Patched(d, from, to) == 0))
  {
    var t := Rewritten(s, f, udp, from, to);
    SumsAfter(s, f, udp, from, to);
    BackApplies(s, f, udp, from, to);
    var b := Rewritten(t, f, udp, to, from);
    SumsAfter(t, f, udp, to, from);
    BackApplies(t, f, udp, to, from);
    BytesRestored(s, f, udp, from, to);
    HeaderOutAndBack(WordAt(s, IP + 10), from, to);
    if 0 < WordAt(s, IP + 10) < M {
      SameWord(WordAt(b, IP + 10), WordAt(s, IP + 10));
    }
    UdpOutAndBack(WordAt(s, udp + 6), from, to);
  }

  /** The same bytes outside the two checksums. */
  ghost predicate Restored(s: seq<nat>, b: seq<nat>, udp: nat)
  {
    |b| == |s| && forall k | 0 <= k < |s| && !(IP + 10 <= k < IP + 12) && !(udp + 6 <= k < udp + 8) :: b[k] == s[k]
  }

  lemma BytesRestored(s: seq<nat>, f: Field, udp: nat, from: nat, to: nat)
    requires Octets(s) && Applies(s, f, from) == Some(udp) && from < 0x1_0000_0000 && to < 0x1_0000_0000
    requires var t := Rewritten(s, f, udp, from, to); Octets(t) && Applies(t, f, to) == Some(udp)
    ensures Restored(s, Rewritten(Rewritten(s, f, udp, from, to), f, udp, to, from), udp)
  {
    var t, at := Rewritten(s, f, udp, from, to), IP + f.Address();
    var b := Rewritten(t, f, udp, to, from);
    RewriteMoves(s, f, udp, from, to);
    RewriteMoves(t, f, udp, to, from);
    assert AddressAt(b, at) == from == AddressAt(s, at);
    AddressBytes(s, b, at);
    forall k | 0 <= k < |s| && !(IP + 10 <= k < IP + 12) && !(udp + 6 <= k < udp + 8) ensures b[k] == s[k] {
      if !(at <= k < at + 4) {
        assert b[k] == t[k] == s[k];
      }
    }
  }

  lemma AddressBytes(s: seq<nat>, b: seq<nat>, at: nat)
    requires at + 4 <= |s| && |b| == |s| && AddressAt(s, at) == AddressAt(b, at)
    requires forall k | at <= k < at + 4 :: s[k] < 256 && b[k] < 256
    ensures b[at] == s[at] && b[at + 1] == s[at + 1] && b[at + 2] == s[at + 2] && b[at + 3] == s[at + 3]
  {
    SameHalves(WordAt(s, at), WordAt(s, at + 2), WordAt(b, at), WordAt(b, at + 2));
  }

  lemma SameHalves(u: nat, v: nat, x: nat, y: nat)
    requires u * 0x10000 + v == x * 0x10000 + y && v < 0x10000 && y < 0x10000
    ensures u == x && v == y
  {
  }
}
