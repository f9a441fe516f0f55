/** Which source line a scaled row belongs to, and with what weight (`emit_bilinear` in
    src/core/gpu/gpu.cpp). */
module Bilinear {
  import opened Basics

  function CeilDiv(a: nat, b: nat): nat
    requires b > 0
  {
    (a + b - 1) / b
  }

  /** The first destination row of source line l, of h rows. */
  function Start(h: nat, l: nat): nat
  {
    if l == 0 then 0 else var k := CeilDiv(Edge(h, l), SCREEN_H) / 2; if k < h then k else h
  }

  /** Twice where line l's share of the rows begins, in source lines. */
  function Edge(h: nat, l: nat): nat
    requires l > 0
  {
    (2 * l - 1) * h
  }

  /** The weight of a line in a destination row, before the clamp, in 1/256. */
  function Weight(h: nat, line: nat, y: nat): int
    requires h > 0
  {
    (2 * y + 1) * SCREEN_H * 128 / h - 128 - (line - 1) * 256
  }

  lemma CeilBounds(a: nat)
    ensures a <= CeilDiv(a, SCREEN_H) * SCREEN_H < a + SCREEN_H
  {
  }

  /** Later lines start no earlier, and none starts past the last row. */
  lemma StartGrows(h: nat, l: nat)
    ensures Start(h, l) <= Start(h, l + 1) <= h
  {
    if l > 0 {
      MulOrder(2 * l - 1, 2 * l + 1, h);
      assert Edge(h, l) <= Edge(h, l + 1);
    }
  }

  lemma Floor(x: nat, h: nat, lo: int, hi: int)
    requires h > 0 && lo * h <= x < hi * h
    ensures lo <= x / h < hi
  {
    var q := x / h;
    assert x == q * h + x % h;
    if q < lo {
      MulOrder(q + 1, lo, h);
    }
    if q >= hi {
      MulOrder(hi, q, h);
    }
  }

  lemma BetweenHalves(a: int, b: int, k: nat, m: nat, y: nat)
    requires a <= k * SCREEN_H && m * SCREEN_H < b + SCREEN_H && k / 2 <= y < m / 2
    ensures a <= (2 * y + 1) * SCREEN_H < b
  {
    assert k <= 2 * y + 1 <= m - 1;
  }

  lemma RowBounds(h: nat, line: nat, y: nat)
    requires 1 <= line < SCREEN_H && Start(h, line) <= y < Start(h, line + 1)
    ensures Edge(h, line) <= (2 * y + 1) * SCREEN_H < Edge(h, line + 1)
  {
    WithinHalves(Edge(h, line), Edge(h, line + 1), y);
  }

  lemma WithinHalves(a: nat, b: nat, y: nat)
    requires CeilDiv(a, SCREEN_H) / 2 <= y < CeilDiv(b, SCREEN_H) / 2
    ensures a <= (2 * y + 1) * SCREEN_H < b
  {
    CeilBounds(a);
    CeilBounds(b);
    BetweenHalves(a, b, CeilDiv(a, SCREEN_H), CeilDiv(b, SCREEN_H), y);
  }

  /** A row a line owns samples between the line before and the line itself: the weight is already
      a byte, and the clamp never bites. */
  lemma WeightInRange(h: nat, line: nat, y: nat)
    requires h > 0 && 1 <= line < SCREEN_H && Start(h, line) <= y < Start(h, line + 1)
    ensures 0 <= Weight(h, line, y) <= 255
  {
    RowBounds(h, line, y);
    Swap(2 * line - 1, h);
    Swap(2 * line + 1, h);
    Floor((2 * y + 1) * SCREEN_H * 128, h, (2 * line - 1) * 128, (2 * line + 1) * 128);
  }

  /** The weight of a row over line l: how far the row's middle lies past the middle of line l - 1, in
      256ths of a line, rounded down. */
  lemma WeightIs(h: nat, line: nat, y: nat)
    requires h > 0
    ensures var w := Weight(h, line, y) + 128 + 256 * (line - 1);
      w * h <= (2 * y + 1) * 192 * 128 < (w + 1) * h
  {
    var x := (2 * y + 1) * 192 * 128;
    assert x == (x / h) * h + x % h;
    assert (x / h + 1) * h == (x / h) * h + h;
  }

  /** Line l's rows start at the first whose middle is at or past the middle between lines l - 1 and l. */
  lemma StartsAt(h: nat, l: nat, y: nat)
    requires 0 < l < SCREEN_H && y < h
    ensures y < Start(h, l) <==> (2 * y + 1) * 192 < (2 * l - 1) * h
  {
    var e, k := Edge(h, l), CeilDiv(Edge(h, l), SCREEN_H);
    CeilBounds(e);
    if 2 * y + 1 < k {
      assert (2 * y + 1) * 192 <= (k - 1) * 192;
    } else {
      assert (2 * y + 1) * 192 >= k * 192;
    }
  }

  lemma Swap(a: int, h: nat)
    ensures (a * 128) * h == a * h * 128
  {
  }

  /** How a destination row was written: by which line, and with what weight over the one before. */
  datatype Row = Row(writes: nat, line: nat, weight: int)

  /** Rows from .. end - 1 written by a line standing alone, or blended with the one before. */
  method Emit(rows: array<Row>, from: nat, end: nat, line: nat, blend: bool)
    requires from <= end <= rows.Length && (blend ==> line > 0)
    modifies rows
    ensures forall y | 0 <= y < rows.Length ::
      rows[y] == if from <= y < end
                 then Row(old(rows[y]).writes + 1, line, if blend then Clamped(Weight(rows.Length, line, y)) else 256)
                 else old(rows[y])
  {
    var y := from;
    while y < end
      invariant from <= y <= end
      invariant forall i | 0 <= i < rows.Length ::
        rows[i] == if from <= i < y
                   then Row(old(rows[i]).writes + 1, line, if blend then Clamped(Weight(rows.Length, line, i)) else 256)
                   else old(rows[i])
    {
      rows[y] := Row(rows[y].writes + 1, line, if blend then Clamped(Weight(rows.Length, line, y)) else 256);
      y := y + 1;
    }
  }

  function Clamped(w: int): int { if w < 0 then 0 else if w > 255 then 255 else w }

  /** `emit_bilinear` of one line, whether or not the line before it was there. */
  method EmitLine(rows: array<Row>, line: nat, havePrev: bool)
    requires line < SCREEN_H && (havePrev ==> line > 0)
    modifies rows
    ensures forall y | 0 <= y < rows.Length ::
      rows[y] == if Owner(rows.Length, line, y)
                 then Row(old(rows[y]).writes + 1, line,
                          if havePrev && y < Start(rows.Length, line + 1) then Weight(rows.Length, line, y) else 256)
                 else old(rows[y])
  {
    var h := rows.Length;
    StartGrows(h, line);
    if line == 0 {
      Emit(rows, 0, Start(h, 1), 0, false);
      return;
    }
    forall y | Start(h, line) <= y < Start(h, line + 1)
      ensures Clamped(Weight(h, line, y)) == Weight(h, line, y)
    {
      WeightInRange(h, line, y);
    }
    Emit(rows, Start(h, line), Start(h, line + 1), line, havePrev);
    if line + 1 == SCREEN_H {
      Emit(rows, Start(h, SCREEN_H), h, line, false);
    }
  }

  /** Line l owns its rows; the last line also those below its centre. */
  predicate Owner(h: nat, line: nat, y: nat)
  {
    Start(h, line) <= y < if line + 1 == SCREEN_H then h else Start(h, line + 1)
  }

  lemma {:induction false} StartOrder(h: nat, l: nat, m: nat)
    requires l <= m
    ensures Start(h, l) <= Start(h, m) <= h
    decreases m - l
  {
    StartGrows(h, l);
    if l < m {
      StartOrder(h, l + 1, m);
    }
  }

  /** A row has one owner. */
  lemma OneOwner(h: nat, l: nat, m: nat, y: nat)
    requires l < SCREEN_H && m < SCREEN_H && Owner(h, l, y) && Owner(h, m, y)
    ensures l == m
  {
    if l < m {
      StartOrder(h, l + 1, m);
    } else if m < l {
      StartOrder(h, m + 1, l);
    }
  }

  lemma {:induction false} OwnerBelow(h: nat, m: nat, y: nat) returns (l: nat)
    requires 0 < m <= SCREEN_H && y < (if m == SCREEN_H then h else Start(h, m))
    ensures l < m && Owner(h, l, y)
  {
    if y >= Start(h, m - 1) {
      l := m - 1;
    } else {
      l := OwnerBelow(h, m - 1, y);
    }
  }

  /** The owner of row y is among the lines shown. */
  ghost predicate Claimed(h: nat, shown: seq<bool>, y: nat)
    requires |shown| == SCREEN_H
  {
    exists l: nat | l < SCREEN_H && shown[l] :: Owner(h, l, y)
  }

  lemma ClaimedBy(h: nat, shown: seq<bool>, l: nat, y: nat)
    requires |shown| == SCREEN_H && l < SCREEN_H && Owner(h, l, y)
    ensures Claimed(h, shown, y) == shown[l]
  {
    forall m: nat | m < SCREEN_H && Owner(h, m, y) ensures m == l {
      OneOwner(h, l, m, y);
    }
  }

  /** Row y as the lines shown leave it: its owner's, over the line before when that was emitted
      last, or as it was when its owner is not shown. */
  ghost predicate RowDone(h: nat, shown: seq<bool>, prev: int, was: Row, row: Row, y: nat)
    requires |shown| == SCREEN_H && h > 0
  {
    if Claimed(h, shown, y) then
      && row.line < SCREEN_H && shown[row.line] && Owner(h, row.line, y) && row.writes == was.writes + 1
      && row.weight ==
        if Follows(shown, prev, row.line) && y < Start(h, row.line + 1) then Weight(h, row.line, y) else 256
    else row == was
  }

  /** The line emitted last when `line` comes, `prev` the last one of the image before. */
  function Last(shown: seq<bool>, prev: int, line: nat): int
    requires line <= |shown|
  {
    if line == 0 then prev else if shown[line - 1] then line - 1 else Last(shown, prev, line - 1)
  }

  predicate Follows(shown: seq<bool>, prev: int, line: nat)
    requires line <= |shown|
  {
    line > 0 && Last(shown, prev, line) + 1 == line
  }

  lemma RowEmitted(h: nat, shown: seq<bool>, prev: int, line: nat, was: Row, row: Row, y: nat)
    requires |shown| == SCREEN_H && line < SCREEN_H && y < h && Owner(h, line, y)
    requires row == if shown[line]
      then Row(was.writes + 1, line,
               if Follows(shown, prev, line) && y < Start(h, line + 1) then Weight(h, line, y) else 256)
      else was
    ensures RowDone(h, shown, prev, was, row, y)
  {
    ClaimedBy(h, shown, line, y);
  }

  /** One line of an image, if it is shown. */
  method ImageLine(rows: array<Row>, shown: seq<bool>, line: nat, last: int, ghost prev: int) returns (next: int)
    requires |shown| == SCREEN_H && line < SCREEN_H && last == Last(shown, prev, line)
    modifies rows
    ensures next == Last(shown, prev, line + 1)
    ensures forall y | 0 <= y < rows.Length ::
      if Owner(rows.Length, line, y) then RowDone(rows.Length, shown, prev, old(rows[y]), rows[y], y)
      else rows[y] == old(rows[y])
  {
    next := last;
    if shown[line] {
      EmitLine(rows, line, line > 0 && last + 1 == line);
      next := line;
    }
    forall y | 0 <= y < rows.Length && Owner(rows.Length, line, y)
      ensures RowDone(rows.Length, shown, prev, old(rows[y]), rows[y], y)
    {
      RowEmitted(rows.Length, shown, prev, line, old(rows[y]), rows[y], y);
    }
  }

  /** The lines of an image that are shown, in order, after an image whose last line was `prev`:
      every row whose owner is shown is written once, by its owner, and no other row is written. */
  method Image(rows: array<Row>, shown: seq<bool>, prev: int) returns (last: int)
    requires |shown| == SCREEN_H
    modifies rows
    ensures last == Last(shown, prev, SCREEN_H)
    ensures forall y | 0 <= y < rows.Length :: RowDone(rows.Length, shown, prev, old(rows[y]), rows[y], y)
  {
    var h, line := rows.Length, 0;
    last := prev;
    while line < SCREEN_H
      invariant line <= SCREEN_H && last == Last(shown, prev, line)
      invariant forall y | 0 <= y < h ::
        if line == SCREEN_H || y < Start(h, line) then RowDone(h, shown, prev, old(rows[y]), rows[y], y)
        else rows[y] == old(rows[y])
    {
      StartGrows(h, line);
      last := ImageLine(rows, shown, line, last, prev);
      line := line + 1;
    }
  }

  /** An image shown in full writes every row. */
  lemma AllClaimed(h: nat, shown: seq<bool>, y: nat)
    requires |shown| == SCREEN_H && y < h && forall l | 0 <= l < SCREEN_H :: shown[l]
    ensures Claimed(h, shown, y)
  {
    var l := OwnerBelow(h, SCREEN_H, y);
    ClaimedBy(h, shown, l, y);
  }
}
