/** Two codes of one hash across a save state (src/core/cheat/ar_engine.cpp): a byte both of them
    wrote comes back with one writer twice, and no frame takes both away. */
module CheatClash {
  import opened CheatJournal
  import opened CheatCarry
  import opened CheatEngine
  import opened CheatHistory

  ghost function Count(ws: seq<nat>, m: nat): nat { multiset(ws)[m] }

  ghost predicate Twice(ws: seq<nat>, m: nat) { Count(ws, m) >= 2 }

  lemma RepeatIsTwice(ws: seq<nat>) returns (m: nat)
    requires !Distinct(ws)
    ensures Twice(ws, m)
  {
    var x, y :| 0 <= x < y < |ws| && ws[x] == ws[y];
    m := ws[x];
    assert ws == ws[..x] + [m] + ws[x + 1..y] + [m] + ws[y + 1..];
  }

  lemma {:induction false} WithoutTakesOne(ws: seq<nat>, i: nat)
    ensures multiset(Without(ws, i)) == multiset(ws) - multiset{i}
  {
    if ws != [] {
      assert ws == [ws[0]] + ws[1..];
      WithoutTakesOne(ws[1..], i);
    }
  }

  // ---- running keeps the repeat ------------------------------------------------------------------

  ghost predicate HeldTwice(st: State, a: nat, m: nat) { a in st.orig && Twice(st.orig[a].writers, m) }

  lemma {:induction false} PlayedTwice(st: State, i: nat, ws: seq<Write>, k: nat, a: nat, m: nat)
    requires |st.mem| == MEM && a < MEM && HeldTwice(st, a, m) && k <= |ws|
    ensures HeldTwice(Played(st, i, true, ws, k), a, m)
    decreases |ws| - k
  {
    if k < |ws| {
      PlayedTwice(Stored(st, i, true, ws[k]), i, ws, k + 1, a, m);
    }
  }

  lemma {:induction false} RunTwice(st: State, codes: seq<Code>, ix: seq<nat>, a: nat, m: nat)
    requires |st.mem| == MEM && a < MEM && HeldTwice(st, a, m) && AllAnalog(codes) && forall x | x in ix :: x < |codes|
    ensures HeldTwice(RunCodes(st, codes, ix), a, m)
  {
    if ix != [] {
      var n := |ix| - 1;
      assert ix[n] in ix && forall x | x in ix[..n] :: x in ix;
      RunTwice(st, codes, ix[..n], a, m);
      var s := RunCodes(st, codes, ix[..n]);
      PlayedTwice(s, ix[n], codes[ix[n]].stores(s.mem), 0, a, m);
    }
  }

  // ---- switching off leaves one ------------------------------------------------------------------

  lemma RevertTakesOne(c: Cell, i: nat, m: nat)
    requires c.entry.Some? && Count(c.entry.o.writers, m) >= if i == m then 2 else 1
    ensures var d := RevertCell(c, i);
      && d.entry.Some? && d.byte == c.byte
      && Count(d.entry.o.writers, m) >= Count(c.entry.o.writers, m) - if i == m then 1 else 0
  {
    var left := Without(c.entry.o.writers, i);
    WithoutTakesOne(c.entry.o.writers, i);
    assert left == [] ==> Count(left, m) == 0;
  }

  /** The undo loop takes each code away once: a byte that lists one twice stays as it is. */
  lemma {:induction false} StuckBy(c: Cell, codes: seq<Code>, was: seq<bool>, n: nat, m: nat)
    requires n <= |codes| == |was| && c.entry.Some? && Twice(c.entry.o.writers, m)
    ensures var d := RevertedBy(c, codes, was, n);
      d.entry.Some? && d.byte == c.byte && Count(d.entry.o.writers, m) >= if n > m then 1 else 2
  {
    if n > 0 {
      StuckBy(c, codes, was, n - 1, m);
      RevertTakesOne(RevertedBy(c, codes, was, n - 1), n - 1, m);
    }
  }

  lemma {:induction false} NoneOn(codes: seq<Code>, n: nat)
    requires n <= |codes|
    ensures EnabledAmong(Chosen(codes, {}), n) == []
  {
    if n > 0 {
      NoneOn(codes, n - 1);
    }
  }

  lemma CellTwice(c: Cell, base: nat, names: set<nat>, ws: seq<nat>, gone: bool, m: nat)
    requires HeldAt(c, base, names) && (names == {} ==> ws == []) && Twice(ws, m)
    ensures var d := SettledCell(c, ws, gone); d.entry.Some? && Twice(d.entry.o.writers, m)
  {
    assert [] + ws == ws;
    assert ws != [];
  }

  /** A byte at which two carried codes clash settles with one writer twice. */
  lemma SettledTwice(r: State, carried: seq<Carried>, codes: seq<Code>, settled: State, base: seq<nat>, a: nat)
    returns (m: nat)
    requires Held(r, carried, base) && SettledState(r, carried, codes, settled)
    requires a < MEM && !ByteApart(carried, codes, a, |carried|)
    ensures HeldTwice(settled, a, m)
  {
    var n := |carried|;
    var ws := Matched(carried, codes, a, n);
    MatchedOnce(carried, codes, a, n);
    m := RepeatIsTwice(ws);
    MatchedIds(carried, codes, a, n);
    assert carried[..n] == carried;
    NoIds(ws, codes);
    CellTwice(At(r, a), base[a], Names(carried, a), ws, Gone(carried, codes, a, n), m);
    assert At(settled, a) == SettledCell(At(r, a), ws, Gone(carried, codes, a, n));
  }

  /** ... stays patched when every code is switched off. */
  lemma StaysPatched(settled: State, codes: seq<Code>, patched: State, was: seq<bool>, clean: State, a: nat, m: nat)
    requires |settled.mem| == MEM && a < MEM && HeldTwice(settled, a, m) && AllAnalog(codes)
    requires patched == RunCodes(settled, codes, EnabledAmong(codes, |codes|))
    requires |was| == |codes| && UndoneBy(patched, Chosen(codes, {}), was, |codes|, clean)
    ensures a in clean.orig && clean.mem[a] == patched.mem[a]
  {
    RunTwice(settled, codes, EnabledAmong(codes, |codes|), a, m);
    StuckBy(At(patched, a), Chosen(codes, {}), was, |codes|, m);
    assert At(clean, a) == RevertedBy(At(patched, a), Chosen(codes, {}), was, |codes|);
  }

  lemma SomeClash(carried: seq<Carried>, codes: seq<Code>) returns (a: nat)
    requires !Apart(carried, codes) && Addressed(carried)
    ensures a < MEM && codes != [] && !ByteApart(carried, codes, a, |carried|)
  {
    var c :| c in carried && !forall a | a in c.addrs :: ByteApart(carried, codes, a, |carried|);
    a :| a in c.addrs && !ByteApart(carried, codes, a, |carried|);
  }

  lemma ChosenTwice(codes: seq<Code>, on: set<nat>)
    ensures Chosen(Chosen(codes, on), {}) == Chosen(codes, {})
  {
  }

  /** What a byte holds when a frame has run codes from a settled journal. */
  function Patch(settled: State, codes: seq<Code>, a: nat): nat
    requires |settled.mem| == MEM && a < MEM
  {
    RunCodes(settled, codes, EnabledAmong(codes, |codes|)).mem[a]
  }

  /** A frame after a load, and one with no code on: memory and journal are what they were before
      any code exactly when no two carried codes of one hash that the first frame enables name the
      same byte. Such a byte stays journaled, and patched. */
  method OffAfterLoad(e: Engine, on: set<nat>, ghost base: seq<nat>) returns (apart: bool, ghost settled: State)
    requires Accounts(e, base) && e.carried != []
    modifies e
    ensures apart == Apart(old(e.carried), Chosen(old(e.codes), on)) && e.Valid() && |settled.mem| == MEM
    ensures e.St() == State(base, map[]) <==> apart
    ensures forall a: nat | a < MEM && !ByteApart(old(e.carried), Chosen(old(e.codes), on), a, |old(e.carried)|) ::
      a in e.originals && e.mem[a] == Patch(settled, Chosen(old(e.codes), on), a)
  {
    ghost var r, carried, codes := e.St(), e.carried, Chosen(e.codes, on);
    apart := Apart(e.carried, Chosen(e.codes, on));
    if apart {
      settled := PlayFrame(e, on, base);
      ghost var _ := PlayFrame(e, {}, base);
      forall a: nat ensures ByteApart(carried, codes, a, |carried|) {
        ApartAt(carried, codes, a);
      }
    } else {
      ghost var somewhere := SomeClash(carried, codes);
      settled := RunFrame(e, on);
      ghost var patched, was := e.St(), e.wasEnabled;
      ghost var clean := RunFrame(e, {});
      NoneOn(codes, |codes|);
      forall a: nat | a < MEM && !ByteApart(carried, codes, a, |carried|)
        ensures a in e.originals && e.mem[a] == Patch(settled, codes, a)
      {
        var m := SettledTwice(r, carried, codes, settled, base, a);
        StaysPatched(settled, codes, patched, was, clean, a, m);
      }
      assert somewhere in e.originals;
    }
  }

  // ---- a session ---------------------------------------------------------------------------------

  function Writing(id: nat, v: nat): Code { Code(id, true, true, mem => [Store(0, [v])]) }

  /** Two codes of one hash, each with a value of its own for byte 0. */
  function Pair(): seq<Code> { [Writing(7, 5), Writing(7, 6)] }

  lemma PairIsOn()
    ensures Chosen(Pair(), {0, 1}) == Pair() && EnabledAmong(Pair(), 2) == [0, 1]
  {
    assert EnabledAmong(Pair(), 1) == [0];
  }

  lemma OneStore(st: State, codes: seq<Code>, i: nat, v: nat)
    requires |st.mem| == MEM && i < |codes| && codes[i] == Writing(7, v)
    ensures var r := RunCode(st, codes, i); r.mem[0] == v
    ensures Writers(RunCode(st, codes, i), 0) == Add(Writers(st, 0), i)
  {
    var w: Write := Store(0, [v]);
    assert codes[i].stores(st.mem) == [w];
    assert RunCode(st, codes, i) == Played(Stored(st, i, true, w), i, true, [w], 1) == Stored(st, i, true, w);
    assert Covers(w, 0);
  }

  lemma TwoCodes(st: State, codes: seq<Code>, i: nat, j: nat)
    requires |st.mem| == MEM && i < |codes| && j < |codes|
    ensures RunCodes(st, codes, [i, j]) == RunCode(RunCode(st, codes, i), codes, j)
  {
    assert [i, j][..1] == [i] && [i][..0] == [];
    assert RunCodes(st, codes, [i]) == RunCode(RunCodes(st, codes, []), codes, i);
  }

  lemma PairRuns(st: State)
    requires |st.mem| == MEM
    ensures RunCodes(st, Pair(), [0, 1]).mem[0] == 6
    ensures st.orig == map[] ==> Writers(RunCodes(st, Pair(), [0, 1]), 0) == [0, 1]
  {
    TwoCodes(st, Pair(), 0, 1);
    OneStore(st, Pair(), 0, 5);
    OneStore(RunCode(st, Pair(), 0), Pair(), 1, 6);
  }

  /** An engine that has run the pair for a frame, over memory that is all zeros. */
  method PairFrame() returns (e: Engine, ghost base: seq<nat>)
    ensures fresh(e) && Accounts(e, base) && e.carried == [] && e.codes == Pair() && Writers(e.St(), 0) == [0, 1]
    ensures base[0] == 0
  {
    var mem := seq(MEM, _ => 0);
    base := mem;
    e := new Engine(Pair(), mem);
    PairIsOn();
    PairRuns(State(mem, map[]));
    ghost var clean := PlayFrame(e, {0, 1}, mem);
  }

  /** The pair saved and loaded beside itself: its two codes clash at byte 0. */
  method PairLoaded(e: Engine, ghost base: seq<nat>)
    requires Accounts(e, base) && e.carried == [] && e.codes == Pair() && Writers(e.St(), 0) == [0, 1]
    modifies e
    ensures Accounts(e, base) && e.carried != [] && e.codes == Pair() && !ByteApart(e.carried, Pair(), 0, |e.carried|)
  {
    ghost var st := e.St();
    assert 0 in st.orig;
    ghost var who := PlaySaveLoad(e, Pair(), base);
    ghost var x, y := WroteIsNamed(st, Pair(), e.carried, who, 7, 0, 0, 1);
    NamedClash(e.carried, Pair(), 7, 0, x, y);
  }

  /** A frame with both on, a save and a load beside the same list, a frame with both on and one with
      both off: byte 0, zero before any code, still holds 6. */
  method SharedHashStays() returns (e: Engine, ghost base: seq<nat>)
    ensures |base| == |e.mem| == MEM && base[0] == 0 && e.mem[0] == 6 && 0 in e.originals
  {
    e, base := PairFrame();
    PairLoaded(e, base);
    PairIsOn();
    var apart;
    ghost var settled;
    apart, settled := OffAfterLoad(e, {0, 1}, base);
    PairRuns(settled);
  }
}
