/** The write journal of the Action Replay engine (src/core/cheat/ar_engine.cpp): the bytes an
    analog code patches, what they held before, and which codes wrote them; undone when the last
    writer of a byte is disabled, and carried through a save state by code hash. */
module CheatJournal {

  const MEM := 0x1_0000_0000

  /** A journaled byte: its content before any code wrote it, what the last write left, and the
      codes that wrote it, by index. */
  datatype Original = Original(value: nat, wrote: nat, writers: seq<nat>)

  /** Guest memory and the journal. */
  datatype State = State(mem: seq<nat>, orig: map<nat, Original>) {
    ghost predicate Ok() { |mem| == MEM && forall a | a in orig :: a < MEM }
  }

  /** One bus store: 1, 2 or 4 bytes, aligned to their size. */
  datatype Store = Store(addr: nat, bytes: seq<nat>)
  type Write = w: Store | w.addr + |w.bytes| <= MEM witness Store(0, [])

  /** A code: the hash of its words, its flags, and the stores one run of it makes, which depend
      on the memory the run starts from. */
  datatype Code = Code(id: nat, enabled: bool, analog: bool, stores: seq<nat> -> seq<Write>)

  /** A writer a saved journal names: the code's hash and the bytes it wrote. */
  datatype Carried = Carried(id: nat, addrs: seq<nat>)

  predicate Distinct(s: seq<nat>) { forall x, y | 0 <= x < y < |s| :: s[x] != s[y] }

  // ---- writer lists -----------------------------------------------------------------

  function Add(ws: seq<nat>, i: nat): seq<nat> { if i in ws then ws else ws + [i] }

  /** ws without its first i. */
  function Without(ws: seq<nat>, i: nat): seq<nat>
  {
    if ws == [] then [] else if ws[0] == i then ws[1..] else [ws[0]] + Without(ws[1..], i)
  }

  /** The writers in `keep`, in their order. */
  function Kept(ws: seq<nat>, keep: set<nat>): seq<nat>
  {
    if ws == [] then [] else if ws[0] in keep then [ws[0]] + Kept(ws[1..], keep) else Kept(ws[1..], keep)
  }

  lemma {:induction false} KeptElements(ws: seq<nat>, keep: set<nat>)
    ensures forall x :: x in Kept(ws, keep) <==> x in ws && x in keep
    ensures Distinct(ws) ==> Distinct(Kept(ws, keep))
  {
    if ws != [] {
      KeptElements(ws[1..], keep);
      assert ws == [ws[0]] + ws[1..];
    }
  }

  lemma {:induction false} KeepAll(ws: seq<nat>, keep: set<nat>)
    requires forall x | x in ws :: x in keep
    ensures Kept(ws, keep) == ws
  {
    if ws != [] {
      KeepAll(ws[1..], keep);
      assert ws == [ws[0]] + ws[1..];
    }
  }

  lemma {:induction false} DropOne(ws: seq<nat>, keep: set<nat>, i: nat)
    requires Distinct(ws)
    ensures Without(Kept(ws, keep), i) == Kept(ws, keep - {i})
  {
    if ws != [] {
      DropOne(ws[1..], keep, i);
      var rest := Kept(ws[1..], keep);
      if ws[0] in keep {
        assert Kept(ws, keep)[1..] == rest;
        if ws[0] == i {
          KeptAgree(ws[1..], keep, keep - {i});
        }
      }
    }
  }

  lemma {:induction false} KeptAgree(ws: seq<nat>, k1: set<nat>, k2: set<nat>)
    requires forall x | x in ws :: x in k1 <==> x in k2
    ensures Kept(ws, k1) == Kept(ws, k2)
  {
    if ws != [] {
      KeptAgree(ws[1..], k1, k2);
    }
  }

  // ---- one byte -----------------------------------------------------------------------

  datatype Entry = None | Some(o: Original)

  /** A byte and its journal entry. */
  datatype Cell = Cell(byte: nat, entry: Entry)

  function At(st: State, a: nat): Cell
    requires a < |st.mem|
  {
    Cell(st.mem[a], if a in st.orig then Some(st.orig[a]) else None)
  }

  /** What `restore` leaves in a byte: the original, only if the byte is still as the code left it. */
  function Restored(byte: nat, o: Original): nat { if byte == o.wrote then o.value else byte }

  /** `revert` of code i, at one byte. */
  function RevertCell(c: Cell, i: nat): Cell
  {
    if c.entry.None? || i !in c.entry.o.writers then c
    else
      var ws := Without(c.entry.o.writers, i);
      if ws == [] then Cell(Restored(c.byte, c.entry.o), None) else Cell(c.byte, Some(c.entry.o.(writers := ws)))
  }

  /** The byte once only the writers in `keep` are left: its own again when none is. */
  function Undone(c: Cell, keep: set<nat>): Cell
  {
    if c.entry.None? then c
    else
      var ws := Kept(c.entry.o.writers, keep);
      if ws == [] then Cell(Restored(c.byte, c.entry.o), None) else Cell(c.byte, Some(c.entry.o.(writers := ws)))
  }

  ghost predicate WellWritten(c: Cell)
  {
    c.entry.Some? ==> c.entry.o.writers != [] && Distinct(c.entry.o.writers)
  }

  /** Reverting codes one after the other is dropping them from the writers kept. */
  lemma RevertDrops(c: Cell, keep: set<nat>, i: nat)
    requires WellWritten(c)
    ensures RevertCell(Undone(c, keep), i) == Undone(c, keep - {i})
  {
    if c.entry.Some? {
      var ws := c.entry.o.writers;
      KeptElements(ws, keep);
      KeptElements(ws, keep - {i});
      DropOne(ws, keep, i);
      if i !in Kept(ws, keep) {
        assert forall x | x in ws :: x in keep <==> x in keep - {i};
        KeptAgree(ws, keep, keep - {i});
      }
    }
  }

  lemma UndoneAll(c: Cell, keep: set<nat>)
    requires WellWritten(c) && (c.entry.Some? ==> forall x | x in c.entry.o.writers :: x in keep)
    ensures Undone(c, keep) == c
  {
    if c.entry.Some? {
      KeepAll(c.entry.o.writers, keep);
    }
  }

  /** What undoing does to the byte itself: with no writer left it holds its content from before any code,
      but one that something else has overwritten since is left alone, and so is one with a writer
      left. */
  lemma UndoneByte(c: Cell, keep: set<nat>)
    ensures c.entry.None? || c.byte != c.entry.o.wrote ==> Undone(c, keep).byte == c.byte
    ensures c.entry.Some? && c.byte == c.entry.o.wrote && (forall i | i in c.entry.o.writers :: i !in keep) ==>
      Undone(c, keep) == Cell(c.entry.o.value, None)
    ensures c.entry.Some? && (exists i :: i in c.entry.o.writers && i in keep) ==>
      Undone(c, keep).byte == c.byte && Undone(c, keep).entry.Some?
  {
    if c.entry.Some? {
      var ws := Kept(c.entry.o.writers, keep);
      KeptElements(c.entry.o.writers, keep);
      if ws != [] { assert ws[0] in ws; }
    }
  }

  // ---- the whole memory ----------------------------------------------------------------

  /** The undo phase: every byte with only the writers in `keep` left. */
  ghost predicate UndoneState(st: State, keep: set<nat>, r: State)
  {
    st.Ok() && r.Ok() && forall a: nat | a < MEM :: At(r, a) == Undone(At(st, a), keep)
  }

  ghost predicate Same(r: State, s: State)
  {
    r.Ok() && s.Ok() && forall a: nat | a < MEM :: At(r, a) == At(s, a)
  }

  /** States that agree at every byte are equal. */
  lemma SameIsEqual(r: State, s: State)
    requires Same(r, s)
    ensures r == s
  {
    forall a: nat | a < MEM
      ensures r.mem[a] == s.mem[a] && (a in r.orig <==> a in s.orig) && (a in r.orig ==> r.orig[a] == s.orig[a])
    {
      assert At(r, a) == At(s, a);
    }
    assert r.mem == s.mem;
    assert r.orig.Keys == s.orig.Keys;
    assert r.orig == s.orig;
  }

  function Value(st: State, a: nat): nat
    requires a < |st.mem|
  {
    if a in st.orig then st.orig[a].value else st.mem[a]
  }

  function Writers(st: State, a: nat): seq<nat> { if a in st.orig then st.orig[a].writers else [] }

  predicate Covers(w: Store, a: nat) { w.addr <= a < w.addr + |w.bytes| }

  /** One store of code i: its bytes land, and when tracked each joins the journal with what it
      held before any code, what it holds now, and i among its writers. */
  function Stored(st: State, i: nat, track: bool, w: Write): (r: State)
    requires |st.mem| == MEM
    ensures |r.mem| == MEM
  {
    var end := w.addr + |w.bytes|;
    State(st.mem[..w.addr] + w.bytes + st.mem[end..],
          if !track then st.orig
          else map a: nat | a < MEM && (a in st.orig.Keys || Covers(w, a)) ::
                 if Covers(w, a) then Original(Value(st, a), w.bytes[a - w.addr], Add(Writers(st, a), i))
                 else st.orig[a])
  }

  lemma StoredOk(st: State, i: nat, track: bool, w: Write)
    requires st.Ok()
    ensures Stored(st, i, track, w).Ok()
  {
  }

  /** The stores of code i from the k-th on. */
  function Played(st: State, i: nat, track: bool, ws: seq<Write>, k: nat): (r: State)
    requires |st.mem| == MEM && k <= |ws|
    ensures |r.mem| == MEM
    decreases |ws| - k
  {
    if k == |ws| then st else Played(Stored(st, i, track, ws[k]), i, track, ws, k + 1)
  }

  /** Store k is the last of a code's stores to land on a byte. */
  ghost predicate LastOn(ws: seq<Write>, a: nat, k: nat) {
    k < |ws| && Covers(ws[k], a) && forall j | k < j < |ws| :: !Covers(ws[j], a)
  }

  lemma StoredByte(st: State, i: nat, track: bool, w: Write, a: nat)
    requires |st.mem| == MEM && a < MEM
    ensures Stored(st, i, track, w).mem[a] == if Covers(w, a) then w.bytes[a - w.addr] else st.mem[a]
  {
  }

  /** A byte no store covers stays. */
  lemma {:induction false} PlayedBeside(st: State, i: nat, track: bool, ws: seq<Write>, k: nat, a: nat)
    requires |st.mem| == MEM && k <= |ws| && a < MEM && forall j | k <= j < |ws| :: !Covers(ws[j], a)
    ensures Played(st, i, track, ws, k).mem[a] == st.mem[a]
    decreases |ws| - k
  {
    if k < |ws| {
      StoredByte(st, i, track, ws[k], a);
      PlayedBeside(Stored(st, i, track, ws[k]), i, track, ws, k + 1, a);
    }
  }

  /** One code's stores land in their order: each byte holds what the last store to it put there. */
  lemma {:induction false} LastStoreStays(st: State, i: nat, track: bool, ws: seq<Write>, k: nat, a: nat, last: nat)
    requires |st.mem| == MEM && k <= last && a < MEM && LastOn(ws, a, last)
    ensures Played(st, i, track, ws, k).mem[a] == ws[last].bytes[a - ws[last].addr]
    decreases |ws| - k
  {
    var r := Stored(st, i, track, ws[k]);
    StoredByte(st, i, track, ws[k], a);
    if k < last {
      LastStoreStays(r, i, track, ws, k + 1, a, last);
    } else {
      PlayedBeside(r, i, track, ws, k + 1, a);
    }
  }

  /** One run of code i. */
  function RunCode(st: State, codes: seq<Code>, i: nat): (r: State)
    requires |st.mem| == MEM && i < |codes|
    ensures |r.mem| == MEM
  {
    Played(st, i, codes[i].analog, codes[i].stores(st.mem), 0)
  }

  /** The enabled codes among the first n, in order. */
  function EnabledAmong(codes: seq<Code>, n: nat): (ix: seq<nat>)
    requires n <= |codes|
    ensures forall x | x in ix :: x < n && codes[x].enabled
  {
    if n == 0 then [] else EnabledAmong(codes, n - 1) + if codes[n - 1].enabled then [n - 1] else []
  }

  /** The codes listed in ix run one after the other, the last k of them left out. */
  function RunCodes(st: State, codes: seq<Code>, ix: seq<nat>): (r: State)
    requires |st.mem| == MEM && forall x | x in ix :: x < |codes|
    ensures |r.mem| == MEM
  {
    if ix == [] then st
    else
      var n := |ix| - 1;
      assert ix[n] in ix && forall x | x in ix[..n] :: x in ix;
      RunCode(RunCodes(st, codes, ix[..n]), codes, ix[n])
  }

  // ---- what holds between frames -----------------------------------------------------

  /** The journal's account of memory whose content before any code was `base`. */
  ghost predicate Sound(c: Cell, base: nat, live: set<nat>)
  {
    && WellWritten(c)
    && (c.entry.None? ==> c.byte == base)
    && (c.entry.Some? ==>
          && c.entry.o.value == base && c.entry.o.wrote == c.byte
          && forall i | i in c.entry.o.writers :: i in live)
  }

  ghost predicate Inv(st: State, base: seq<nat>, live: set<nat>)
  {
    st.Ok() && |base| == MEM && forall a: nat | a < MEM :: Sound(At(st, a), base[a], live)
  }

  lemma SoundUndone(c: Cell, base: nat, live: set<nat>, keep: set<nat>)
    requires Sound(c, base, live)
    ensures Sound(Undone(c, keep), base, live * keep)
  {
    if c.entry.Some? {
      KeptElements(c.entry.o.writers, keep);
    }
  }

  /** The undo phase keeps the account, over the writers left. */
  lemma InvUndone(st: State, r: State, base: seq<nat>, live: set<nat>, keep: set<nat>)
    requires Inv(st, base, live) && UndoneState(st, keep, r)
    ensures Inv(r, base, live * keep)
  {
    forall a: nat | a < MEM
      ensures Sound(At(r, a), base[a], live * keep)
    {
      assert Sound(At(st, a), base[a], live);
      assert At(r, a) == Undone(At(st, a), keep);
      SoundUndone(At(st, a), base[a], live, keep);
    }
  }

  lemma AddDistinct(ws: seq<nat>, i: nat)
    requires Distinct(ws)
    ensures Distinct(Add(ws, i)) && Add(ws, i) != [] && forall x :: x in Add(ws, i) <==> x in ws || x == i
  {
  }

  /** A tracked store by a live code keeps the account. */
  lemma InvStored(st: State, base: seq<nat>, live: set<nat>, i: nat, w: Write)
    requires Inv(st, base, live) && i in live
    ensures Inv(Stored(st, i, true, w), base, live)
  {
    var r := Stored(st, i, true, w);
    StoredOk(st, i, true, w);
    forall a: nat | a < MEM
      ensures Sound(At(r, a), base[a], live)
    {
      assert Sound(At(st, a), base[a], live);
      AddDistinct(Writers(st, a), i);
    }
  }

  lemma {:induction false} InvPlayed(st: State, base: seq<nat>, live: set<nat>, i: nat, ws: seq<Write>, k: nat)
    requires Inv(st, base, live) && i in live && k <= |ws|
    ensures Inv(Played(st, i, true, ws, k), base, live)
    decreases |ws| - k
  {
    if k < |ws| {
      InvStored(st, base, live, i, ws[k]);
      InvPlayed(Stored(st, i, true, ws[k]), base, live, i, ws, k + 1);
    }
  }

  /** A frame's run of tracked, live codes keeps the account. */
  lemma {:induction false} InvRunCodes(st: State, base: seq<nat>, live: set<nat>, codes: seq<Code>, ix: seq<nat>)
    requires Inv(st, base, live) && forall x | x in ix :: x < |codes| && codes[x].analog && x in live
    ensures Inv(RunCodes(st, codes, ix), base, live)
  {
    if ix != [] {
      var n := |ix| - 1;
      assert ix[n] in ix;
      InvRunCodes(st, base, live, codes, ix[..n]);
      var s := RunCodes(st, codes, ix[..n]);
      InvPlayed(s, base, live, ix[n], codes[ix[n]].stores(s.mem), 0);
    }
  }

  lemma FirstIsLive(c: Cell, base: nat, live: set<nat>)
    requires Sound(c, base, live)
    ensures c.entry.Some? ==> c.entry.o.writers[0] in live
  {
  }

  /** No writer left: memory is what it was before any code, and the journal is empty. */
  lemma NothingLeft(st: State, base: seq<nat>)
    requires Inv(st, base, {})
    ensures st == State(base, map[])
  {
    forall a: nat | a < MEM
      ensures a !in st.orig && st.mem[a] == base[a]
    {
      assert Sound(At(st, a), base[a], {});
      FirstIsLive(At(st, a), base[a], {});
    }
    assert st.orig.Keys == {};
    assert st.mem == base;
  }
}
