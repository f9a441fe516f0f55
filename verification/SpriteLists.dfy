/** The per-line sprite lists of a 2D engine (src/core/gpu/engine2d.cpp) and the write tracking that
    says when they are stale (src/core/gpu/engine2d_regs.cpp). */
module SpriteLists {

  const SPRITES := 128
  const LINES := 256
  const OAM_BYTES := 1024

  const HEIGHTS: seq<nat> := [8, 8, 16, 8, 16, 8, 32, 8, 32, 16, 32, 8, 64, 32, 64, 8]

  type Oam = s: seq<nat> | |s| == OAM_BYTES && forall k | 0 <= k < OAM_BYTES :: s[k] < 256
    witness seq(OAM_BYTES, _ => 0)

  /** What the lists read of a sprite: its top line, its mode, and its shape and size. */
  datatype Geometry = Geometry(y: nat, mode: nat, shape: nat, size: nat)

  function GeometryOf(oam: Oam, n: nat): (g: Geometry)
    requires n < SPRITES
    ensures g.y < 256 && g.mode < 4 && g.shape < 4 && g.size < 4
  {
    Geometry(oam[8 * n], oam[8 * n + 1] % 4, oam[8 * n + 1] / 64, oam[8 * n + 3] / 64)
  }

  /** The height of a sprite's box; none when it is off, twice the sprite's when double-sized. */
  function BoxHeight(g: Geometry): (h: nat)
    requires g.shape < 4 && g.size < 4
    ensures h <= 128
  {
    if g.mode == 2 then 0 else HEIGHTS[g.shape + 4 * g.size] * if g.mode == 3 then 2 else 1
  }

  /** A line within h lines from y down, wrapping at the bottom. */
  predicate InBox(y: nat, h: nat, line: nat)
    requires y < LINES && line < LINES
  {
    (if line >= y then line - y else line + LINES - y) < h
  }

  predicate Covers(g: Geometry, line: nat)
    requires g.shape < 4 && g.size < 4 && g.y < LINES && line < LINES
  {
    InBox(g.y, BoxHeight(g), line)
  }

  /** Which sprites cover a line. */
  function On(oam: Oam, line: nat): nat -> bool
    requires line < LINES
  {
    (n: nat) => n < SPRITES && Covers(GeometryOf(oam, n), line)
  }

  /** The height of a sprite in lines, by shape and size: square 8 to 64, wide 8, 8, 16, 32, tall 16, 32,
      32, 64, and 8 for the shape that means nothing. */
  lemma HeightByShape(g: Geometry)
    requires g.shape < 4 && g.size < 4 && g.mode != 2
    ensures var h := if g.mode == 3 then BoxHeight(g) / 2 else BoxHeight(g);
      match g.shape
      case 0 => h == [8, 16, 32, 64][g.size]
      case 1 => h == [8, 8, 16, 32][g.size]
      case 2 => h == [16, 32, 32, 64][g.size]
      case _ => h == 8
    ensures g.mode == 3 ==> BoxHeight(g) % 2 == 0
  {
  }

  /** A sprite covers a line when the line is less than its height below its top, counted round 256
      lines, and it is not off. */
  lemma CoversLine(oam: Oam, n: nat, line: nat)
    requires n < SPRITES && line < LINES
    ensures var g := Geometry(0, oam[8 * n + 1] % 4, oam[8 * n + 1] / 64, oam[8 * n + 3] / 64);
      On(oam, line)(n) <==> g.mode != 2 && (line + 256 - oam[8 * n]) % 256 < BoxHeight(g)
  {
    if line >= oam[8 * n] {
      assert (line + 256 - oam[8 * n]) % 256 == line - oam[8 * n];
    }
  }

  /** Those of the first n sprites that do, in OAM order. */
  function Listed(on: nat -> bool, n: nat): (l: seq<nat>)
    ensures |l| <= n && forall x | x in l :: x < n
  {
    if n == 0 then [] else Listed(on, n - 1) + if on(n - 1) then [n - 1] else []
  }

  /** A line's list: exactly the sprites that cover it. */
  lemma {:induction false} ListedExactly(on: nat -> bool, n: nat)
    ensures forall x: nat :: x in Listed(on, n) <==> x < n && on(x)
  {
    if n > 0 {
      ListedExactly(on, n - 1);
    }
  }

  /** ... increasing, so in OAM order and without repeats. */
  lemma {:induction false} ListedInOrder(on: nat -> bool, n: nat)
    ensures forall i, j | 0 <= i < j < |Listed(on, n)| :: Listed(on, n)[i] < Listed(on, n)[j]
  {
    if n > 0 {
      ListedInOrder(on, n - 1);
      var l := Listed(on, n - 1);
      assert forall i | 0 <= i < |l| :: l[i] in l;
    }
  }

  lemma {:induction false} SameList(p: nat -> bool, q: nat -> bool, n: nat)
    requires forall k: nat | k < n :: p(k) == q(k)
    ensures Listed(p, n) == Listed(q, n)
  {
    if n > 0 {
      SameList(p, q, n - 1);
    }
  }

  /** One more sprite. */
  lemma ListedNext(oam: Oam, line: nat, n: nat)
    requires line < LINES && n < SPRITES
    ensures Listed(On(oam, line), n + 1) == Listed(On(oam, line), n)
              + if InBox(GeometryOf(oam, n).y, BoxHeight(GeometryOf(oam, n)), line) then [n] else []
  {
  }

  lemma ListMember(oam: Oam, line: nat, k: nat)
    requires line < LINES && k < |Listed(On(oam, line), SPRITES)|
    ensures Listed(On(oam, line), SPRITES)[k] < SPRITES
    ensures Covers(GeometryOf(oam, Listed(On(oam, line), SPRITES)[k]), line)
  {
    ListedExactly(On(oam, line), SPRITES);
    assert Listed(On(oam, line), SPRITES)[k] in Listed(On(oam, line), SPRITES);
  }

  /** The bits of a byte the lists read, by its place in a sprite's entry: the masks 0xFF, 0xC3,
      0x00, 0xC0 and none. */
  function Kept(place: nat, v: nat): (nat, nat)
  {
    if place == 0 then (v, 0) else if place == 1 then (v % 4, v / 64) else if place == 3 then (0, v / 64) else (0, 0)
  }

  predicate GeometryByte(at: nat, old_: nat, new_: nat) { Kept(at % 8, old_) != Kept(at % 8, new_) }

  /** Two OAMs that differ in no bit the lists read have the same geometry. */
  lemma SameKeptSameGeometry(a: Oam, b: Oam, n: nat)
    requires n < SPRITES && forall k | 0 <= k < OAM_BYTES :: !GeometryByte(k, a[k], b[k])
    ensures GeometryOf(a, n) == GeometryOf(b, n)
  {
    assert !GeometryByte(8 * n, a[8 * n], b[8 * n]);
    assert !GeometryByte(8 * n + 1, a[8 * n + 1], b[8 * n + 1]);
    assert !GeometryByte(8 * n + 3, a[8 * n + 3], b[8 * n + 3]);
    assert (8 * n) % 8 == 0 && (8 * n + 1) % 8 == 1 && (8 * n + 3) % 8 == 3;
  }

  /** The masks are exact: a byte that changes under them changes its sprite's geometry. */
  lemma MaskIsExact(a: Oam, b: Oam, n: nat, place: nat)
    requires n < SPRITES && place < 8 && GeometryByte(8 * n + place, a[8 * n + place], b[8 * n + place])
    ensures GeometryOf(a, n) != GeometryOf(b, n)
  {
    assert (8 * n + place) % 8 == place;
  }

  /** Every line's list holds the first n sprites that cover it. */
  ghost predicate BuiltTo(oam: Oam, lists: seq<seq<nat>>, n: nat)
  {
    |lists| == LINES && forall line: nat | line < LINES :: lists[line] == Listed(On(oam, line), n)
  }

  class Sprites {
    var oam: Oam
    var geomGen: nat          // bumped when a write changes what the lists read
    var listsGen: int         // the generation the lists were built from
    var lists: seq<seq<nat>>

    ghost predicate Fresh()
      reads this
    {
      BuiltTo(oam, lists, SPRITES)
    }

    /** Equal generations mean the lists are those of the sprites as they are. */
    ghost predicate Valid()
      reads this
    {
      listsGen <= geomGen && (listsGen == geomGen ==> Fresh())
    }

    constructor ()
      ensures Valid() && listsGen != geomGen
    {
      oam, geomGen, listsGen, lists := seq(OAM_BYTES, _ => 0), 0, -1, [];
    }

    /** An 8, 16 or 32-bit OAM write applied (`apply`, J_OAM). */
    method Apply(at: nat, bytes: seq<nat>)
      requires Valid() && |bytes| in {1, 2, 4} && at % |bytes| == 0 && at + |bytes| <= OAM_BYTES
      requires forall k | 0 <= k < |bytes| :: bytes[k] < 256
      modifies this`oam, this`geomGen
      ensures Valid() && oam == old(oam)[..at] + bytes + old(oam)[at + |bytes|..]
      ensures geomGen == old(geomGen) + if exists k | 0 <= k < OAM_BYTES ::
        GeometryByte(k, old(oam)[k], oam[k]) then 1 else 0
    {
      ghost var was := oam;
      var next: Oam := oam[..at] + bytes + oam[at + |bytes|..];
      var changed := false;
      var b := 0;
      while b < |bytes|
        invariant b <= |bytes| && changed == exists k | at <= k < at + b :: GeometryByte(k, oam[k], next[k])
      {
        if GeometryByte(at + b, oam[at + b], bytes[b]) {
          changed := true;
        }
        assert next[at + b] == bytes[b];
        b := b + 1;
      }
      oam := next;
      if changed {
        geomGen := geomGen + 1;
      } else {
        forall n: nat | n < SPRITES
          ensures GeometryOf(was, n) == GeometryOf(oam, n)
        {
          SameKeptSameGeometry(was, oam, n);
        }
        forall line: nat | line < LINES
          ensures Listed(On(was, line), SPRITES) == Listed(On(oam, line), SPRITES)
        {
          SameList(On(was, line), On(oam, line), SPRITES);
        }
      }
    }

    /** A sprite's box, a line at a time, each line's list extended. */
    method AddBox(ghost before: seq<seq<nat>>, n: nat, y: nat, h: nat)
      requires n < SPRITES && y < LINES && h <= 128 && lists == before && |lists| == LINES
      modifies this`lists
      ensures |lists| == LINES && forall line: nat | line < LINES ::
        lists[line] == before[line] + if InBox(y, h, line) then [n] else []
    {
      var i := 0;
      while i < h
        invariant i <= h && |lists| == LINES
        invariant forall line: nat | line < LINES ::
          lists[line] == before[line] + if InBox(y, i, line) then [n] else []
      {
        var line := (y + i) % LINES;
        lists := lists[line := lists[line] + [n]];
        i := i + 1;
      }
    }

    /** One sprite's turn in the rebuild. */
    method AddSprite(n: nat)
      requires n < SPRITES && BuiltTo(oam, lists, n)
      modifies this`lists
      ensures BuiltTo(oam, lists, n + 1)
    {
      ghost var before := lists;
      var g := GeometryOf(oam, n);
      if g.mode != 2 {
        AddBox(lists, n, g.y, BoxHeight(g));
      }
      forall line: nat | line < LINES
        ensures lists[line] == Listed(On(oam, line), n + 1)
      {
        ListedNext(oam, line, n);
        assert before[line] + [] == before[line];
      }
    }

    /** `rebuild_sprite_lists`. */
    method Rebuild()
      modifies this`lists
      ensures Fresh()
    {
      lists := seq(LINES, _ => []);
      var n := 0;
      while n < SPRITES
        invariant n <= SPRITES && BuiltTo(oam, lists, n)
      {
        AddSprite(n);
        n := n + 1;
      }
    }

    /** The exact per-line test over a line's candidates. */
    method DrawListed(list: seq<nat>, line: nat) returns (drawn: seq<nat>)
      requires line < LINES && forall k | 0 <= k < |list| :: list[k] < SPRITES && Covers(GeometryOf(oam, list[k]), line)
      ensures drawn == list
    {
      drawn := [];
      var k := 0;
      while k < |list|
        invariant k <= |list| && drawn == list[..k]
      {
        if Covers(GeometryOf(oam, list[k]), line) {
          drawn := drawn + [list[k]];
        }
        k := k + 1;
      }
    }

    /** The list lookup of `render_sprites`, and the exact test it repeats: the sprites it goes on to
        draw are those of all 128 that the test would pass, in order. */
    method ForLine(line: nat) returns (drawn: seq<nat>)
      requires Valid() && line < LINES
      modifies this`lists, this`listsGen
      ensures Valid() && listsGen == geomGen && drawn == Listed(On(oam, line), SPRITES) == lists[line]
    {
      if listsGen != geomGen {
        listsGen := geomGen;
        Rebuild();
      }
      forall k | 0 <= k < |lists[line]|
        ensures lists[line][k] < SPRITES && Covers(GeometryOf(oam, lists[line][k]), line)
      {
        ListMember(oam, line, k);
      }
      drawn := DrawListed(lists[line], line);
    }

    /** Any sequence of writes and rendered lines keeps the lists' promise. */
    method Run(writes: seq<(nat, seq<nat>)>, line: nat) returns (drawn: seq<nat>)
      requires Valid() && line < LINES
      requires forall w | w in writes ::
        |w.1| in {1, 2, 4} && w.0 % |w.1| == 0 && w.0 + |w.1| <= OAM_BYTES && forall k | 0 <= k < |w.1| :: w.1[k] < 256
      modifies this
      ensures Valid() && drawn == Listed(On(oam, line), SPRITES)
    {
      var i := 0;
      while i < |writes|
        invariant i <= |writes| && Valid()
      {
        assert writes[i] in writes;
        Apply(writes[i].0, writes[i].1);
        i := i + 1;
      }
      drawn := ForLine(line);
    }
  }
}
