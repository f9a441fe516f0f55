/** The incremental Internet checksum of the DNS redirection (src/net/slirp_driver.cpp; section 3 of
    RFC 1624). */
module Checksum {

  const M := 0xFFFF

  /** The end-around carries folded in. */
  function Fold(n: nat): (r: nat)
    ensures r <= M && (r == 0 <==> n == 0) && Same(r, n)
  {
    if n / 0x10000 == 0 then n else FoldStep(n); Fold(n % 0x10000 + n / 0x10000)
  }

  /** Congruence in one's-complement arithmetic. */
  ghost predicate Same(a: int, b: int) { (a - b) % M == 0 }

  lemma FoldStep(n: nat)
    ensures Same(n % 0x10000 + n / 0x10000, n) && (n >= 0x10000 ==> 0 < n % 0x10000 + n / 0x10000 < n)
  {
    assert n == n / 0x10000 * 0x10000 + n % 0x10000;
    Multiple(n % 0x10000 + n / 0x10000 - n, -(n / 0x10000));
  }

  lemma Multiple(x: int, q: int)
    requires x == q * M
    ensures x % M == 0
  {
  }

  lemma SameTransitive(a: int, b: int, c: int)
    requires Same(a, b) && Same(b, c)
    ensures Same(a, c) && Same(c, a)
  {
  }

  /** The two halves of an address, as a datagram's sum counts them. */
  function Halves(addr: nat): nat { addr / 0x10000 + addr % 0x10000 }

  function Sum(old_: nat, from: nat, to: nat): nat
    requires old_ <= M && from < 0x1_0000_0000 && to < 0x1_0000_0000
  {
    (M - old_) + (M - from / 0x10000) + (M - from % 0x10000) + Halves(to)
  }

  /** `checksum_patch`'s result. */
  function Patched(old_: nat, from: nat, to: nat): (c: nat)
    requires old_ <= M && from < 0x1_0000_0000 && to < 0x1_0000_0000
    ensures c <= M
  {
    M - Fold(Sum(old_, from, to))
  }

  /** `checksum_patch`: the fold loop ends, with the carries all in. */
  method ChecksumPatch(old_: nat, from: nat, to: nat) returns (c: nat)
    requires old_ <= M && from < 0x1_0000_0000 && to < 0x1_0000_0000
    ensures c == Patched(old_, from, to)
  {
    var sum := M - old_;
    sum := sum + (M - from / 0x10000) + (M - from % 0x10000);
    sum := sum + to / 0x10000 + to % 0x10000;
    assert sum == Sum(old_, from, to);
    while sum / 0x10000 != 0
      invariant 0 <= sum && Fold(sum) == Fold(Sum(old_, from, to))
      decreases sum
    {
      FoldStep(sum);
      sum := sum % 0x10000 + sum / 0x10000;
    }
    c := M - sum;
  }

  /** The patched checksum makes up for the change of address. */
  lemma PatchedMakesUp(old_: nat, from: nat, to: nat)
    requires old_ <= M && from < 0x1_0000_0000 && to < 0x1_0000_0000
    ensures Same(Patched(old_, from, to) + Halves(to), old_ + Halves(from))
  {
    var f, s := Fold(Sum(old_, from, to)), Sum(old_, from, to);
    assert Same(f, s);
    var q := (f - s) / M;
    assert f - s == q * M;
    assert s == 3 * M - old_ - Halves(from) + Halves(to);
    Multiple(M - f + Halves(to) - (old_ + Halves(from)), -2 - q);
  }

  // ---- datagrams ------------------------------------------------------------------------------

  /** A 16-bit word, most significant byte first. */
  function WordAt(s: seq<nat>, at: nat): nat
    requires at + 2 <= |s|
  {
    s[at] * 256 + s[at + 1]
  }

  /** n words from an offset, added up. */
  function WordSum(s: seq<nat>, at: nat, n: nat): nat
    requires at + 2 * n <= |s|
  {
    if n == 0 then 0 else WordSum(s, at, n - 1) + WordAt(s, at + 2 * n - 2)
  }

  ghost predicate Octets(s: seq<nat>) { forall k | 0 <= k < |s| :: s[k] < 256 }

  /** A word stored. */
  function Stored(s: seq<nat>, at: nat, w: nat): (r: seq<nat>)
    requires at + 2 <= |s| && w <= M
    ensures |r| == |s|
  {
    s[at := w / 256][at + 1 := w % 256]
  }

  /** A stored word changes the sums it is in by its difference, and no others. */
  lemma {:induction false} SumStored(s: seq<nat>, at: nat, n: nat, k: nat, w: nat)
    requires at + 2 * n <= |s| && k < n && w <= M
    ensures WordSum(Stored(s, at + 2 * k, w), at, n) == WordSum(s, at, n) - WordAt(s, at + 2 * k) + w
  {
    var t := Stored(s, at + 2 * k, w);
    if k == n - 1 {
      SumElsewhere(s, at, n - 1, at + 2 * k, w);
      assert WordAt(t, at + 2 * k) == w;
    } else {
      SumStored(s, at, n - 1, k, w);
      assert WordAt(t, at + 2 * n - 2) == WordAt(s, at + 2 * n - 2);
    }
  }

  lemma {:induction false} SumElsewhere(s: seq<nat>, at: nat, n: nat, x: nat, w: nat)
    requires at + 2 * n <= |s| && x + 2 <= |s| && w <= M && (x + 2 <= at || at + 2 * n <= x)
    ensures WordSum(Stored(s, x, w), at, n) == WordSum(s, at, n)
  {
    if n > 0 {
      SumElsewhere(s, at, n - 1, x, w);
    }
  }

  /** A sum verifies: all its words, the checksum among them, fold to all ones. */
  ghost predicate Verifies(total: nat) { Fold(total) == M }

  lemma VerifiesIff(total: nat)
    ensures Verifies(total) <==> total > 0 && Same(total, 0)
  {
    var f := Fold(total);
    assert Same(f, total);
    if total > 0 && Same(total, 0) {
      SameTransitive(f, total, 0);
      assert f % M == 0 && 0 < f <= M;
    }
    if f == M {
      SameTransitive(total, f, 0);
    }
  }

  lemma StillVerifies(before: nat, after: nat)
    requires Verifies(before) && Same(before, after) && after > 0
    ensures Verifies(after)
  {
    VerifiesIff(before);
    SameTransitive(after, before, 0);
    VerifiesIff(after);
  }
}
