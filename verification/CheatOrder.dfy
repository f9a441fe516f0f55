/** What the order of the code list decides (src/core/cheat/ar_engine.cpp): when two lists with the same
    codes on leave the same memory and journal whatever the codes do, and when they do for codes that
    keep to bytes of their own. */
module CheatOrder {
  import opened CheatJournal
  import opened CheatCarry

  /** The stores a code makes, from the memory it starts from. */
  type Program = seq<nat> -> seq<Write>

  /** The list with the programs given to each hash. */
  function Rewired(codes: seq<Code>, f: nat -> Program): (r: seq<Code>)
    ensures |r| == |codes|
    ensures forall k | 0 <= k < |codes| :: r[k] == codes[k].(stores := f(codes[k].id))
  {
    seq(|codes|, k requires 0 <= k < |codes| => codes[k].(stores := f(codes[k].id)))
  }

  /** The codes on, in list order. */
  function Switched(codes: seq<Code>): (ix: seq<nat>)
    ensures Listed(ix, codes)
  {
    EnabledAmong(codes, |codes|)
  }

  /** Their hashes. */
  function Order(codes: seq<Code>): (ids: seq<nat>)
    ensures |ids| == |Switched(codes)|
  {
    HashesOf(codes, Switched(codes))
  }

  function HashesOf(codes: seq<Code>, ix: seq<nat>): (ids: seq<nat>)
    requires Listed(ix, codes)
    ensures |ids| == |ix| && forall k | 0 <= k < |ids| :: ix[k] in ix && ids[k] == codes[ix[k]].id
  {
    seq<nat>(|ix|, (k: nat) requires k < |ix| => assert ix[k] in ix; codes[ix[k]].id)
  }

  /** A run of the list under these programs. */
  function Ran(st: State, codes: seq<Code>, f: nat -> Program): State
    requires |st.mem| == MEM
  {
    RunCodes(st, Rewired(codes, f), Switched(codes))
  }

  /** The runs of two lists from two like states are alike. */
  ghost predicate RunsAlike(codes: seq<Code>, codes2: seq<Code>, f: nat -> Program, st: State, r: State) {
    Alike(st, codes, r, codes2) ==> Alike(Ran(st, codes, f), codes, Ran(r, codes2, f), codes2)
  }

  /** ... whatever the codes do. */
  ghost predicate AlwaysAlike(codes: seq<Code>, codes2: seq<Code>) {
    forall f: nat -> Program, st: State, r: State :: RunsAlike(codes, codes2, f, st, r)
  }

  // ---- the same order is enough ------------------------------------------------------------

  /** Alike under rewired lists is alike: only hashes count. */
  lemma AlikeRewired(st: State, codes: seq<Code>, r: State, codes2: seq<Code>, f: nat -> Program)
    ensures Alike(st, codes, r, codes2) <==> Alike(st, Rewired(codes, f), r, Rewired(codes2, f))
  {
    forall a: nat | st.Ok() && r.Ok() && a < MEM
      ensures AlikeAt(At(st, a), codes, At(r, a), codes2) <==>
        AlikeAt(At(st, a), Rewired(codes, f), At(r, a), Rewired(codes2, f))
    {
      if a in st.orig && a in r.orig {
        RewiredIds(At(st, a), codes, f);
        RewiredIds(At(r, a), codes2, f);
      }
    }
  }

  lemma RewiredIds(c: Cell, codes: seq<Code>, f: nat -> Program)
    requires c.entry.Some?
    ensures Listed(c.entry.o.writers, codes) <==> Listed(c.entry.o.writers, Rewired(codes, f))
    ensures Listed(c.entry.o.writers, codes) ==>
      Ids(c.entry.o.writers, codes) == Ids(c.entry.o.writers, Rewired(codes, f))
  {
  }

  lemma SameOrderAlike(codes: seq<Code>, codes2: seq<Code>, f: nat -> Program, st: State, r: State)
    requires AllAnalog(codes) && AllAnalog(codes2) && Order(codes) == Order(codes2) && Alike(st, codes, r, codes2)
    ensures Alike(Ran(st, codes, f), codes, Ran(r, codes2, f), codes2)
  {
    var ix, jx := Switched(codes), Switched(codes2);
    forall k | 0 <= k < |ix| ensures SameCode(Rewired(codes, f), ix[k], Rewired(codes2, f), jx[k]) {
      assert ix[k] in ix && jx[k] in jx;
      assert Order(codes)[k] == Order(codes2)[k];
    }
    AlikeRewired(st, codes, r, codes2, f);
    RunAlike(st, Rewired(codes, f), ix, r, Rewired(codes2, f), jx);
    AlikeRewired(Ran(st, codes, f), codes, Ran(r, codes2, f), codes2, f);
  }

  // ---- and needed -----------------------------------------------------------------------------

  /** Two codes store to byte 0, nothing else is stored. */
  function Duel(x: nat, y: nat): nat -> Program {
    (id: nat) => (mem: seq<nat>) => if id == x then [Mark(5)] else if id == y then [Mark(6)] else []
  }

  function Mark(v: nat): Write { Store(0, [v]) }

  /** What byte 0 holds after codes with these hashes have run. */
  function Winner(ids: seq<nat>, x: nat, y: nat, d: nat): nat {
    if ids == [] then d
    else
      var n := |ids| - 1;
      if ids[n] == x then 5 else if ids[n] == y then 6 else Winner(ids[..n], x, y, d)
  }

  lemma MarkStored(st: State, i: nat, track: bool, v: nat)
    requires |st.mem| == MEM
    ensures Played(st, i, track, [Mark(v)], 0).mem[0] == v
  {
    var t := Stored(st, i, track, Mark(v));
    assert t.mem == [v] + st.mem[1..];
    assert Played(st, i, track, [Mark(v)], 0) == Played(t, i, track, [Mark(v)], 1) == t;
  }

  lemma DuelRun(st: State, codes: seq<Code>, i: nat, x: nat, y: nat)
    requires |st.mem| == MEM && i < |codes|
    ensures var id := codes[i].id;
            RunCode(st, Rewired(codes, Duel(x, y)), i).mem[0] == if id == x then 5 else if id == y then 6 else st.mem[0]
  {
    var c := Rewired(codes, Duel(x, y))[i];
    assert c.stores(st.mem) == if c.id == x then [Mark(5)] else if c.id == y then [Mark(6)] else [];
    MarkStored(st, i, c.analog, 5);
    MarkStored(st, i, c.analog, 6);
  }

  lemma {:induction false} DuelRuns(st: State, codes: seq<Code>, ix: seq<nat>, x: nat, y: nat)
    requires |st.mem| == MEM && Listed(ix, codes)
    ensures Listed(ix, Rewired(codes, Duel(x, y)))
    ensures RunCodes(st, Rewired(codes, Duel(x, y)), ix).mem[0] == Winner(HashesOf(codes, ix), x, y, st.mem[0])
    decreases |ix|
  {
    if ix != [] {
      var n := |ix| - 1;
      assert forall k | k in ix[..n] :: k in ix;
      DuelRuns(st, codes, ix[..n], x, y);
      assert HashesOf(codes, ix[..n]) == HashesOf(codes, ix)[..n];
      assert ix[n] in ix;
      DuelRun(RunCodes(st, Rewired(codes, Duel(x, y)), ix[..n]), codes, ix[n], x, y);
    }
  }

  /** The later of the two wins. */
  lemma {:induction false} LaterWins(ids: seq<nat>, x: nat, y: nat, d: nat, j: nat)
    requires j < |ids| && x != y && (ids[j] == x || ids[j] == y) && forall k | j < k < |ids| ::
      ids[k] != x && ids[k] != y
    ensures Winner(ids, x, y, d) == if ids[j] == x then 5 else 6
    decreases |ids|
  {
    var n := |ids| - 1;
    if j < n { LaterWins(ids[..n], x, y, d, j); }
  }

  /** The first place where two orders differ. */
  lemma {:induction false} FirstDifference(p: seq<nat>, q: seq<nat>, m: nat) returns (k: nat)
    requires m < |p| == |q| && p[m] != q[m]
    ensures k < |p| && p[..k] == q[..k] && p[k] != q[k]
    decreases m
  {
    if p[..m] == q[..m] {
      k := m;
    } else {
      var j :| 0 <= j < m && p[j] != q[j];
      k := FirstDifference(p, q, j);
    }
  }

  /** Where two orders of the same hashes differ first, the two hashes stand the other way round later. */
  lemma DifferentWinners(p: seq<nat>, q: seq<nat>, d: nat) returns (x: nat, y: nat)
    requires Distinct(p) && Distinct(q) && |p| == |q| && p != q && forall v :: v in p <==> v in q
    ensures x != y && Winner(p, x, y, d) == 6 && Winner(q, x, y, d) == 5
  {
    var m :| 0 <= m < |p| && p[m] != q[m];
    var k := FirstDifference(p, q, m);
    x, y := p[k], q[k];
    assert y in p && x in q;
    var i :| 0 <= i < |p| && p[i] == y;
    var j :| 0 <= j < |q| && q[j] == x;
    assert forall n | 0 <= n < k :: p[n] == p[..k][n] == q[..k][n] == q[n];
    LaterWins(p, x, y, d, i);
    LaterWins(q, x, y, d, j);
  }

  lemma {:induction false} EnabledAscend(codes: seq<Code>, n: nat)
    requires n <= |codes|
    ensures forall i, j | 0 <= i < j < |EnabledAmong(codes, n)| :: EnabledAmong(codes, n)[i] < EnabledAmong(codes, n)[j]
  {
    if n > 0 {
      EnabledAscend(codes, n - 1);
      var s := EnabledAmong(codes, n - 1);
      assert forall i | 0 <= i < |s| :: s[i] in s;
    }
  }

  /** The hashes in order: each once ... */
  lemma OrderNoneTwice(codes: seq<Code>)
    requires DistinctIds(codes)
    ensures Distinct(Order(codes))
  {
    var ix := Switched(codes);
    EnabledAscend(codes, |codes|);
    forall i, j | 0 <= i < j < |ix| ensures Order(codes)[i] != Order(codes)[j] {
      assert ix[i] in ix && ix[j] in ix;
    }
  }

  function Elements(ids: seq<nat>): set<nat> { set v | v in ids }

  /** ... and those of the codes on. */
  lemma OrderOfEnabled(codes: seq<Code>)
    ensures Elements(Order(codes)) == EnabledIds(codes)
  {
    var ix := Switched(codes);
    EnabledListed(codes, |codes|);
    forall v | v in EnabledIds(codes) ensures v in Order(codes) {
      var i: nat :| i < |codes| && codes[i].enabled && codes[i].id == v;
      assert i in ix;
      var k :| 0 <= k < |ix| && ix[k] == i;
      assert Order(codes)[k] == v;
    }
    forall v | v in Order(codes) ensures v in EnabledIds(codes) {
      var k :| 0 <= k < |ix| && Order(codes)[k] == v;
      assert ix[k] in ix;
    }
  }

  lemma {:induction false} Counted(ids: seq<nat>)
    requires Distinct(ids)
    ensures |ids| == |Elements(ids)|
  {
    if ids != [] {
      var n := |ids| - 1;
      Counted(ids[..n]);
      OneMoreElement(ids, n);
    }
  }

  lemma OneMoreElement(ids: seq<nat>, n: nat)
    requires Distinct(ids) && n + 1 == |ids|
    ensures Elements(ids) == Elements(ids[..n]) + {ids[n]} && ids[n] !in Elements(ids[..n])
  {
    assert ids == ids[..n] + [ids[n]];
  }

  function Blank(): (st: State)
    ensures st.Ok() && |st.mem| == MEM
  {
    State(seq(MEM, _ => 0), map[])
  }

  lemma OrdersCompare(codes: seq<Code>, codes2: seq<Code>)
    requires DistinctIds(codes) && DistinctIds(codes2) && EnabledIds(codes) == EnabledIds(codes2)
    ensures var p, q := Order(codes), Order(codes2);
            Distinct(p) && Distinct(q) && |p| == |q| && forall v :: v in p <==> v in q
  {
    var p, q := Order(codes), Order(codes2);
    OrderNoneTwice(codes);
    OrderNoneTwice(codes2);
    OrderOfEnabled(codes);
    OrderOfEnabled(codes2);
    Counted(p);
    Counted(q);
    assert forall v: nat :: v in p <==> v in Elements(p);
    assert forall v: nat :: v in q <==> v in Elements(q);
  }

  lemma OrderNeeded(codes: seq<Code>, codes2: seq<Code>)
    requires DistinctIds(codes) && DistinctIds(codes2) && EnabledIds(codes) == EnabledIds(codes2)
    requires Order(codes) != Order(codes2)
    ensures !AlwaysAlike(codes, codes2)
  {
    var st := Blank();
    OrdersCompare(codes, codes2);
    var x, y := DifferentWinners(Order(codes), Order(codes2), st.mem[0]);
    DuelRuns(st, codes, Switched(codes), x, y);
    DuelRuns(st, codes2, Switched(codes2), x, y);
    assert !RunsAlike(codes, codes2, Duel(x, y), st, st);
  }

  /** Two lists with the same hashes on run alike from like states, whatever the codes do, exactly when
      the hashes come in the same order. */
  lemma OrderExact(codes: seq<Code>, codes2: seq<Code>)
    requires DistinctIds(codes) && DistinctIds(codes2) && AllAnalog(codes) && AllAnalog(codes2)
    requires EnabledIds(codes) == EnabledIds(codes2)
    ensures AlwaysAlike(codes, codes2) <==> Order(codes) == Order(codes2)
  {
    if Order(codes) == Order(codes2) {
      forall f: nat -> Program, st: State, r: State ensures RunsAlike(codes, codes2, f, st, r) {
        if Alike(st, codes, r, codes2) { SameOrderAlike(codes, codes2, f, st, r); }
      }
    } else {
      OrderNeeded(codes, codes2);
    }
  }

  // ---- codes that keep to bytes of their own ---------------------------------------------------

  /** One of the stores from the k-th on reaches byte a. */
  predicate Touches(ws: seq<Write>, a: nat) { exists k :: 0 <= k < |ws| && Covers(ws[k], a) }

  /** Programs that always make the same stores. */
  function Fixed(g: nat -> seq<Write>): nat -> Program { (id: nat) => (mem: seq<nat>) => g(id) }

  /** No byte is stored to under two of these hashes. */
  ghost predicate Separate(g: nat -> seq<Write>, ids: set<nat>) {
    forall x, y, a: nat | x in ids && y in ids && x != y && Touches(g(x), a) :: !Touches(g(y), a)
  }

  lemma StoredElsewhere(st: State, i: nat, track: bool, w: Write, a: nat)
    requires st.Ok() && a < MEM && !Covers(w, a)
    ensures Stored(st, i, track, w).Ok() && At(Stored(st, i, track, w), a) == At(st, a)
  {
    StoredOk(st, i, track, w);
  }

  lemma {:induction false} PlayedElsewhere(st: State, i: nat, track: bool, ws: seq<Write>, k: nat, a: nat)
    requires st.Ok() && a < MEM && k <= |ws| && !Touches(ws, a)
    ensures Played(st, i, track, ws, k).Ok() && At(Played(st, i, track, ws, k), a) == At(st, a)
    decreases |ws| - k
  {
    if k < |ws| {
      StoredElsewhere(st, i, track, ws[k], a);
      PlayedElsewhere(Stored(st, i, track, ws[k]), i, track, ws, k + 1, a);
    }
  }

  /** The same store at one byte of two states that are alike there. */
  lemma StoredAlikeAt(st: State, codes: seq<Code>, i: nat, r: State, codes2: seq<Code>, j: nat, track: bool, w: Write,
                      a: nat)
    requires st.Ok() && r.Ok() && a < MEM && AlikeAt(At(st, a), codes, At(r, a), codes2)
    requires i < |codes| && j < |codes2| && codes[i].id == codes2[j].id
    ensures Stored(st, i, track, w).Ok() && Stored(r, j, track, w).Ok()
    ensures AlikeAt(At(Stored(st, i, track, w), a), codes, At(Stored(r, j, track, w), a), codes2)
  {
    StoredOk(st, i, track, w);
    StoredOk(r, j, track, w);
    AddIds(Writers(st, a), i, codes);
    AddIds(Writers(r, a), j, codes2);
  }

  lemma {:induction false} PlayedAlikeAt(st: State, codes: seq<Code>, i: nat, r: State, codes2: seq<Code>, j: nat,
                                         track: bool, ws: seq<Write>, k: nat, a: nat)
    requires st.Ok() && r.Ok() && a < MEM && AlikeAt(At(st, a), codes, At(r, a), codes2)
    requires i < |codes| && j < |codes2| && codes[i].id == codes2[j].id && k <= |ws|
    ensures Played(st, i, track, ws, k).Ok() && Played(r, j, track, ws, k).Ok()
    ensures AlikeAt(At(Played(st, i, track, ws, k), a), codes, At(Played(r, j, track, ws, k), a), codes2)
    decreases |ws| - k
  {
    if k < |ws| {
      StoredAlikeAt(st, codes, i, r, codes2, j, track, ws[k], a);
      PlayedAlikeAt(Stored(st, i, track, ws[k]), codes, i, Stored(r, j, track, ws[k]), codes2, j, track, ws, k + 1, a);
    }
  }

  lemma LastRun(st: State, codes: seq<Code>, ix: seq<nat>, n: nat)
    requires |st.mem| == MEM && Listed(ix, codes) && |ix| == n + 1
    ensures Listed(ix[..n], codes) && ix[n] < |codes|
    ensures RunCodes(st, codes, ix) == RunCode(RunCodes(st, codes, ix[..n]), codes, ix[n])
  {
    assert ix[n] in ix && forall x | x in ix[..n] :: x in ix;
  }

  lemma FixedRun(st: State, codes: seq<Code>, g: nat -> seq<Write>, i: nat)
    requires |st.mem| == MEM && i < |codes|
    ensures RunCode(st, Rewired(codes, Fixed(g)), i) == Played(st, i, codes[i].analog, g(codes[i].id), 0)
  {
    var c := Rewired(codes, Fixed(g))[i];
    assert c.stores(st.mem) == g(codes[i].id);
  }

  /** The code at place m does not store to byte a. */
  ghost predicate Avoids(codes: seq<Code>, g: nat -> seq<Write>, ix: seq<nat>, m: nat, a: nat)
    requires m < |ix|
  {
    ix[m] < |codes| && !Touches(g(codes[ix[m]].id), a)
  }

  /** A byte none of the codes stores to. */
  lemma {:induction false} RunElsewhere(st: State, codes: seq<Code>, g: nat -> seq<Write>, ix: seq<nat>, a: nat)
    requires st.Ok() && Listed(ix, codes) && a < MEM && forall m | 0 <= m < |ix| :: Avoids(codes, g, ix, m, a)
    ensures Listed(ix, Rewired(codes, Fixed(g)))
    ensures var r := RunCodes(st, Rewired(codes, Fixed(g)), ix); r.Ok() && At(r, a) == At(st, a)
    decreases |ix|
  {
    if ix != [] {
      var n := |ix| - 1;
      LastElsewhere(st, codes, g, ix, n, a);
      RunElsewhere(st, codes, g, ix[..n], a);
    }
  }

  /** The last code leaves the byte as those before it have. */
  lemma LastElsewhere(st: State, codes: seq<Code>, g: nat -> seq<Write>, ix: seq<nat>, n: nat, a: nat)
    requires st.Ok() && Listed(ix, codes) && a < MEM && |ix| == n + 1 && Avoids(codes, g, ix, n, a)
    ensures Listed(ix, Rewired(codes, Fixed(g))) && Listed(ix[..n], Rewired(codes, Fixed(g))) && Listed(ix[..n], codes)
    ensures forall m | 0 <= m < n :: Avoids(codes, g, ix[..n], m, a) <==> Avoids(codes, g, ix, m, a)
    ensures var c := Rewired(codes, Fixed(g));
            var r := RunCodes(st, c, ix[..n]);
            r.Ok() ==> RunCodes(st, c, ix).Ok() && At(RunCodes(st, c, ix), a) == At(r, a)
  {
    var c := Rewired(codes, Fixed(g));
    LastRun(st, c, ix, n);
    assert forall x | x in ix[..n] :: x in ix;
    var r := RunCodes(st, c, ix[..n]);
    if r.Ok() {
      FixedRun(r, codes, g, ix[n]);
      PlayedElsewhere(r, ix[n], codes[ix[n]].analog, g(codes[ix[n]].id), 0, a);
    }
  }

  /** Only the code at place m may store to byte a. */
  ghost predicate OnlyAt(codes: seq<Code>, g: nat -> seq<Write>, ix: seq<nat>, m: nat, a: nat) {
    Listed(ix, codes) && m < |ix| && forall k | 0 <= k < |ix| && k != m :: Avoids(codes, g, ix, k, a)
  }

  /** The same code, alone at a byte in both orders, leaves it alike. */
  lemma {:induction false} AloneAlike(st: State, codes: seq<Code>, ix: seq<nat>, m: nat, r: State, codes2: seq<Code>,
                          jx: seq<nat>, n: nat,
                                      g: nat -> seq<Write>, a: nat)
    requires st.Ok() && r.Ok() && a < MEM && AlikeAt(At(st, a), codes, At(r, a), codes2)
    requires OnlyAt(codes, g, ix, m, a) && OnlyAt(codes2, g, jx, n, a)
    requires ix[m] < |codes| && jx[n] < |codes2| && codes[ix[m]].id == codes2[jx[n]].id
    requires codes[ix[m]].analog == codes2[jx[n]].analog
    ensures Listed(ix, Rewired(codes, Fixed(g))) && Listed(jx, Rewired(codes2, Fixed(g)))
    ensures var s, t := RunCodes(st, Rewired(codes, Fixed(g)), ix), RunCodes(r, Rewired(codes2, Fixed(g)), jx);
            s.Ok() && t.Ok() && AlikeAt(At(s, a), codes, At(t, a), codes2)
    decreases |ix| + |jx|
  {
    var i, j := |ix| - 1, |jx| - 1;
    if m < i {
      LastElsewhere(st, codes, g, ix, i, a);
      AloneAlike(st, codes, ix[..i], m, r, codes2, jx, n, g, a);
    } else if n < j {
      LastElsewhere(r, codes2, g, jx, j, a);
      AloneAlike(st, codes, ix, m, r, codes2, jx[..j], n, g, a);
    } else {
      BothLast(st, codes, ix, r, codes2, jx, g, a);
    }
  }

  lemma BothLast(st: State, codes: seq<Code>, ix: seq<nat>, r: State, codes2: seq<Code>, jx: seq<nat>,
                 g: nat -> seq<Write>, a: nat)
    requires st.Ok() && r.Ok() && a < MEM && AlikeAt(At(st, a), codes, At(r, a), codes2) && |ix| > 0 && |jx| > 0
    requires OnlyAt(codes, g, ix, |ix| - 1, a) && OnlyAt(codes2, g, jx, |jx| - 1, a)
    requires var i, j := ix[|ix| - 1], jx[|jx| - 1];
             i < |codes| && j < |codes2| && codes[i].id == codes2[j].id && codes[i].analog == codes2[j].analog
    ensures Listed(ix, Rewired(codes, Fixed(g))) && Listed(jx, Rewired(codes2, Fixed(g)))
    ensures var s, t := RunCodes(st, Rewired(codes, Fixed(g)), ix), RunCodes(r, Rewired(codes2, Fixed(g)), jx);
            s.Ok() && t.Ok() && AlikeAt(At(s, a), codes, At(t, a), codes2)
  {
    var i, j := ix[|ix| - 1], jx[|jx| - 1];
    var c, d := Rewired(codes, Fixed(g)), Rewired(codes2, Fixed(g));
    LastRun(st, c, ix, |ix| - 1);
    LastRun(r, d, jx, |jx| - 1);
    PrefixElsewhere(st, codes, g, ix, a);
    PrefixElsewhere(r, codes2, g, jx, a);
    var s, t := RunCodes(st, c, ix[..|ix| - 1]), RunCodes(r, d, jx[..|jx| - 1]);
    FixedRun(s, codes, g, i);
    FixedRun(t, codes2, g, j);
    PlayedAlikeAt(s, codes, i, t, codes2, j, codes[i].analog, g(codes[i].id), 0, a);
  }

  lemma PrefixElsewhere(st: State, codes: seq<Code>, g: nat -> seq<Write>, ix: seq<nat>, a: nat)
    requires st.Ok() && a < MEM && |ix| > 0 && OnlyAt(codes, g, ix, |ix| - 1, a)
    ensures Listed(ix[..|ix| - 1], Rewired(codes, Fixed(g)))
    ensures var s := RunCodes(st, Rewired(codes, Fixed(g)), ix[..|ix| - 1]); s.Ok() && At(s, a) == At(st, a)
  {
    var n := |ix| - 1;
    assert forall x | x in ix[..n] :: x in ix;
    forall m | 0 <= m < n ensures Avoids(codes, g, ix[..n], m, a) {
      assert Avoids(codes, g, ix, m, a);
    }
    RunElsewhere(st, codes, g, ix[..n], a);
  }

  /** Where a hash stands among the codes on, every other code avoids its bytes. */
  lemma AloneAt(codes: seq<Code>, g: nat -> seq<Write>, m: nat, a: nat)
    requires DistinctIds(codes) && Separate(g, EnabledIds(codes)) && m < |Switched(codes)|
    requires Touches(g(Order(codes)[m]), a)
    ensures OnlyAt(codes, g, Switched(codes), m, a)
  {
    var ix := Switched(codes);
    OrderNoneTwice(codes);
    OrderOfEnabled(codes);
    forall k | 0 <= k < |ix| && k != m ensures Avoids(codes, g, ix, k, a) {
      assert ix[k] in ix;
      assert Order(codes)[k] in Elements(Order(codes)) && Order(codes)[m] in Elements(Order(codes));
      assert Order(codes)[k] != Order(codes)[m];
    }
  }

  lemma SeparateAt(codes: seq<Code>, codes2: seq<Code>, g: nat -> seq<Write>, st: State, r: State, a: nat)
    requires DistinctIds(codes) && DistinctIds(codes2) && AllAnalog(codes) && AllAnalog(codes2)
    requires EnabledIds(codes) == EnabledIds(codes2) && Separate(g, EnabledIds(codes))
    requires st.Ok() && r.Ok() && a < MEM && AlikeAt(At(st, a), codes, At(r, a), codes2)
    ensures var s, t := Ran(st, codes, Fixed(g)), Ran(r, codes2, Fixed(g));
            s.Ok() && t.Ok() && AlikeAt(At(s, a), codes, At(t, a), codes2)
  {
    var ix, jx, p, q := Switched(codes), Switched(codes2), Order(codes), Order(codes2);
    OrderOfEnabled(codes);
    OrderOfEnabled(codes2);
    if m :| 0 <= m < |p| && Touches(g(p[m]), a) {
      assert p[m] in Elements(p);
      var n :| 0 <= n < |q| && q[n] == p[m];
      AloneAt(codes, g, m, a);
      AloneAt(codes2, g, n, a);
      assert ix[m] in ix && jx[n] in jx;
      AloneAlike(st, codes, ix, m, r, codes2, jx, n, g, a);
    } else {
      AllAvoid(codes, g, a);
      forall n | 0 <= n < |q| ensures !Touches(g(q[n]), a) {
        assert q[n] in Elements(q);
        var m :| 0 <= m < |p| && p[m] == q[n];
      }
      AllAvoid(codes2, g, a);
      RunElsewhere(st, codes, g, ix, a);
      RunElsewhere(r, codes2, g, jx, a);
    }
  }

  lemma AllAvoid(codes: seq<Code>, g: nat -> seq<Write>, a: nat)
    requires forall m | 0 <= m < |Order(codes)| :: !Touches(g(Order(codes)[m]), a)
    ensures forall m | 0 <= m < |Switched(codes)| :: Avoids(codes, g, Switched(codes), m, a)
  {
    forall m | 0 <= m < |Switched(codes)| ensures Avoids(codes, g, Switched(codes), m, a) {
      assert Switched(codes)[m] in Switched(codes) && !Touches(g(Order(codes)[m]), a);
    }
  }

  /** Codes that always make the same stores, no two of them to one byte, run alike in every order. */
  lemma SeparateRunAlike(codes: seq<Code>, codes2: seq<Code>, g: nat -> seq<Write>, st: State, r: State)
    requires DistinctIds(codes) && DistinctIds(codes2) && AllAnalog(codes) && AllAnalog(codes2)
    requires EnabledIds(codes) == EnabledIds(codes2) && Separate(g, EnabledIds(codes)) && Alike(st, codes, r, codes2)
    ensures Alike(Ran(st, codes, Fixed(g)), codes, Ran(r, codes2, Fixed(g)), codes2)
  {
    var s, t := Ran(st, codes, Fixed(g)), Ran(r, codes2, Fixed(g));
    assert AlikeAt(At(st, 0), codes, At(r, 0), codes2);
    SeparateAt(codes, codes2, g, st, r, 0);
    forall a: nat | a < MEM ensures AlikeAt(At(s, a), codes, At(t, a), codes2) {
      assert AlikeAt(At(st, a), codes, At(r, a), codes2);
      SeparateAt(codes, codes2, g, st, r, a);
    }
    BytesAlike(s, codes, t, codes2);
  }

  lemma BytesAlike(s: State, codes: seq<Code>, t: State, codes2: seq<Code>)
    requires s.Ok() && t.Ok() && forall a: nat | a < MEM :: AlikeAt(At(s, a), codes, At(t, a), codes2)
    ensures Alike(s, codes, t, codes2)
  {
    forall a: nat | a < MEM ensures s.mem[a] == t.mem[a] {
      assert AlikeAt(At(s, a), codes, At(t, a), codes2);
    }
    assert s.mem == t.mem;
  }

  /** A run after saving and loading beside a list in another order, for such codes: as with no save. */
  lemma SaveLoadSeparate(st: State, codes: seq<Code>, undone: State, loaded: State, carried: seq<Carried>,
                         codes2: seq<Code>, settled: State, g: nat -> seq<Write>)
    requires DistinctIds(codes) && DistinctIds(codes2) && AllAnalog(codes) && AllAnalog(codes2)
    requires EnabledIds(codes) == EnabledIds(codes2) && Separate(g, EnabledIds(codes))
    requires forall a | a in st.orig :: st.orig[a].writers != []
    requires Carries(carried, st, codes) && LoadedFrom(st, loaded)
    requires UndoneState(st, On(codes), undone) && SettledState(loaded, carried, codes2, settled)
    ensures Alike(Ran(undone, codes, Fixed(g)), codes, Ran(settled, codes2, Fixed(g)), codes2)
  {
    SettledLikeUndone(st, codes, undone, loaded, carried, codes2, settled);
    SeparateRunAlike(codes, codes2, g, undone, settled);
  }
}
