/** Action Replay codes over a whole session (src/core/cheat/ar_engine.cpp): any history of frames,
    with any codes on in each, and of saved states loaded again beside other code lists. */
module CheatHistory {
  import opened CheatJournal
  import opened CheatCarry
  import opened CheatEngine

  /** A frame with the codes in `on` enabled, or a state saved and loaded beside a code list. What
      happens between a save and its load leaves no trace: memory and journal are those saved. */
  datatype Event = Frame(on: set<nat>) | SaveLoad(list: seq<Code>)

  // ---- a loaded journal ---------------------------------------------------------------------

  /** A byte of a loaded journal: what it held before any code, until a run settles who wrote it. */
  ghost predicate HeldAt(c: Cell, base: nat, names: set<nat>) {
    match c.entry
    case None => c.byte == base && names == {}
    case Some(o) => o == Original(base, c.byte, []) && names != {}
  }

  /** No carried code names a byte twice. */
  ghost predicate EachOnce(carried: seq<Carried>) { forall c | c in carried :: Distinct(c.addrs) }

  /** The account of memory between a load and the next run. */
  ghost predicate Held(st: State, carried: seq<Carried>, base: seq<nat>) {
    && st.Ok() && |base| == MEM && EachOnce(carried)
    && forall a: nat | a < MEM :: HeldAt(At(st, a), base[a], Names(carried, a))
  }

  /** Loading keeps the account of the state saved. */
  lemma LoadHolds(st: State, codes: seq<Code>, live: set<nat>, r: State, carried: seq<Carried>, base: seq<nat>)
    requires Inv(st, base, live) && LoadedFrom(st, r) && Carries(carried, st, codes) && EachOnce(carried)
    ensures Held(r, carried, base)
  {
    forall a: nat | a < MEM ensures HeldAt(At(r, a), base[a], Names(carried, a)) {
      assert Sound(At(st, a), base[a], live);
      NoIds(Writers(st, a), codes);
    }
  }

  // ---- two codes of one hash ----------------------------------------------------------------

  /** Carried codes x and y have one hash, that of an enabled code, and both name byte a. */
  predicate ClashAt(carried: seq<Carried>, codes: seq<Code>, x: nat, y: nat, a: nat)
    requires x < |carried| && y < |carried|
  {
    && carried[x].id == carried[y].id && Match(codes, carried[x].id, 0) < |codes|
    && a in carried[x].addrs && a in carried[y].addrs
  }

  /** No two of the first n carried codes clash at byte a. */
  predicate ByteApart(carried: seq<Carried>, codes: seq<Code>, a: nat, n: nat)
    requires n <= |carried|
  {
    forall x, y | 0 <= x < y < n :: !ClashAt(carried, codes, x, y, a)
  }

  /** No two carried codes of one hash that the list enables name the same byte. */
  predicate Apart(carried: seq<Carried>, codes: seq<Code>)
  {
    forall c | c in carried :: forall a | a in c.addrs :: ByteApart(carried, codes, a, |carried|)
  }

  lemma ApartAt(carried: seq<Carried>, codes: seq<Code>, a: nat)
    requires Apart(carried, codes)
    ensures ByteApart(carried, codes, a, |carried|)
  {
    forall x, y | 0 <= x < y < |carried| ensures !ClashAt(carried, codes, x, y, a) {
      if a in carried[x].addrs {
        assert carried[x] in carried && ByteApart(carried, codes, a, |carried|);
      }
    }
  }

  lemma {:induction false} HitsOnce(addrs: seq<nat>, a: nat, i: nat, n: nat)
    requires Distinct(addrs) && n <= |addrs|
    ensures |Hits(addrs, a, i, n)| <= 1
  {
    if n > 0 {
      HitsOnce(addrs, a, i, n - 1);
      if addrs[n - 1] == a { assert a !in addrs[..n - 1]; }
    }
  }

  /** Carried code j brings back writer i of byte a. */
  predicate Brings(carried: seq<Carried>, codes: seq<Code>, a: nat, j: nat, i: nat)
    requires j < |carried|
  {
    a in carried[j].addrs && i == Match(codes, carried[j].id, 0) < |codes|
  }

  lemma BringsOne(carried: seq<Carried>, codes: seq<Code>, a: nat, j: nat)
    requires EachOnce(carried) && j < |carried|
    ensures |MatchedBy(carried[j], codes, a)| <= 1
    ensures forall i: nat :: i in MatchedBy(carried[j], codes, a) <==> Brings(carried, codes, a, j, i)
  {
    var c, m := carried[j], Match(codes, carried[j].id, 0);
    assert c in carried && c.addrs[..|c.addrs|] == c.addrs;
    HitsOnce(c.addrs, a, m, |c.addrs|);
    if m < |codes| && a in c.addrs {
      assert MatchedBy(c, codes, a)[0] in MatchedBy(c, codes, a);
    }
  }

  lemma {:induction false} BroughtBack(carried: seq<Carried>, codes: seq<Code>, a: nat, n: nat)
    requires EachOnce(carried) && n <= |carried|
    ensures forall i: nat ::
      i in Matched(carried, codes, a, n) <==> exists j :: 0 <= j < n && Brings(carried, codes, a, j, i)
  {
    if n > 0 {
      BroughtBack(carried, codes, a, n - 1);
      BringsOne(carried, codes, a, n - 1);
      forall i: nat
        ensures i in Matched(carried, codes, a, n) <==> exists j :: 0 <= j < n && Brings(carried, codes, a, j, i)
      {
        if i in Matched(carried, codes, a, n - 1) {
          var j :| 0 <= j < n - 1 && Brings(carried, codes, a, j, i);
          assert 0 <= j < n && Brings(carried, codes, a, j, i);
        }
      }
    }
  }

  lemma DistinctPlus(u: seq<nat>, v: seq<nat>)
    requires |v| <= 1
    ensures Distinct(u + v) <==> Distinct(u) && forall i | i in v :: i !in u
  {
    var w := u + v;
    assert forall x | 0 <= x < |u| :: w[x] == u[x];
    if |v| == 1 {
      assert w[|u|] == v[0] && v[0] in v;
      if Distinct(w) {
        assert forall x | 0 <= x < |u| :: w[x] != w[|u|];
      }
    }
  }

  /** Carried code y clashes with one before it exactly when what it brings back is there already. */
  lemma ClashIsRepeat(carried: seq<Carried>, codes: seq<Code>, a: nat, y: nat)
    requires EachOnce(carried) && y < |carried|
    ensures (forall i | i in MatchedBy(carried[y], codes, a) :: i !in Matched(carried, codes, a, y))
       <==> forall x | 0 <= x < y :: !ClashAt(carried, codes, x, y, a)
  {
    BringsOne(carried, codes, a, y);
    BroughtBack(carried, codes, a, y);
    forall x: nat | x < y && ClashAt(carried, codes, x, y, a)
      ensures exists i :: i in MatchedBy(carried[y], codes, a) && i in Matched(carried, codes, a, y)
    {
      var m := Match(codes, carried[y].id, 0);
      assert Brings(carried, codes, a, x, m) && Brings(carried, codes, a, y, m);
    }
    forall i | i in MatchedBy(carried[y], codes, a) && i in Matched(carried, codes, a, y)
      ensures exists x :: 0 <= x < y && ClashAt(carried, codes, x, y, a)
    {
      assert Brings(carried, codes, a, y, i);
      var x :| 0 <= x < y && Brings(carried, codes, a, x, i);
      assert ClashAt(carried, codes, x, y, a);
    }
  }

  lemma OneMoreApart(carried: seq<Carried>, codes: seq<Code>, a: nat, y: nat)
    requires y < |carried|
    ensures ByteApart(carried, codes, a, y + 1)
       <==> ByteApart(carried, codes, a, y) && forall x | 0 <= x < y :: !ClashAt(carried, codes, x, y, a)
  {
  }

  /** The writers a byte gets back are without repeats exactly when no two carried codes clash there. */
  lemma {:induction false} MatchedOnce(carried: seq<Carried>, codes: seq<Code>, a: nat, n: nat)
    requires EachOnce(carried) && n <= |carried|
    ensures Distinct(Matched(carried, codes, a, n)) <==> ByteApart(carried, codes, a, n)
  {
    if n > 0 {
      var y := n - 1;
      MatchedOnce(carried, codes, a, y);
      BringsOne(carried, codes, a, y);
      DistinctPlus(Matched(carried, codes, a, y), MatchedBy(carried[y], codes, a));
      ClashIsRepeat(carried, codes, a, y);
      OneMoreApart(carried, codes, a, y);
    }
  }

  lemma MatchedOn(carried: seq<Carried>, codes: seq<Code>, a: nat, n: nat)
    requires EachOnce(carried) && n <= |carried|
    ensures forall i | i in Matched(carried, codes, a, n) :: i in On(codes)
  {
    BroughtBack(carried, codes, a, n);
  }

  // ---- settling a loaded journal ---------------------------------------------------------------

  /** A byte of a loaded journal with the writers ws it gets back. */
  lemma SettledSound(c: Cell, base: nat, names: set<nat>, ws: seq<nat>, gone: bool, on: set<nat>)
    requires HeldAt(c, base, names) && (names == {} ==> ws == []) && (ws == [] && names != {} ==> gone)
    requires forall i | i in ws :: i in on
    ensures Sound(SettledCell(c, ws, gone), base, on) <==> Distinct(ws)
  {
    assert [] + ws == ws;
  }

  /** A settled byte: sound exactly when no two carried codes clash there. */
  lemma SettledCellExact(r: State, carried: seq<Carried>, codes: seq<Code>, base: seq<nat>, a: nat)
    requires Held(r, carried, base) && a < MEM
    ensures var d := SettledCell(At(r, a), Matched(carried, codes, a, |carried|), Gone(carried, codes, a, |carried|));
      Sound(d, base[a], On(codes)) <==> ByteApart(carried, codes, a, |carried|)
  {
    var n := |carried|;
    var ws := Matched(carried, codes, a, n);
    MatchedOnce(carried, codes, a, n);
    MatchedOn(carried, codes, a, n);
    MatchedIds(carried, codes, a, n);
    assert carried[..n] == carried;
    NoIds(ws, codes);
    SettledSound(At(r, a), base[a], Names(carried, a), ws, Gone(carried, codes, a, n), On(codes));
  }

  /** Settling a loaded journal keeps the account, whatever the list's order and whichever codes are
      off, exactly when no two codes of one hash that the list enables name the same byte: then an
      enabled writer keeps its bytes, and a byte with none left gets its original back. */
  lemma SettledExact(r: State, carried: seq<Carried>, codes: seq<Code>, settled: State, base: seq<nat>)
    requires Held(r, carried, base) && Addressed(carried) && SettledState(r, carried, codes, settled)
    ensures Inv(settled, base, On(codes)) <==> Apart(carried, codes)
  {
    forall a: nat | a < MEM
      ensures Sound(At(settled, a), base[a], On(codes)) <==> ByteApart(carried, codes, a, |carried|)
    {
      SettledCellExact(r, carried, codes, base, a);
    }
    if Apart(carried, codes) {
      forall a: nat | a < MEM ensures Sound(At(settled, a), base[a], On(codes)) {
        ApartAt(carried, codes, a);
      }
    }
    if Inv(settled, base, On(codes)) {
      forall c, a | c in carried && a in c.addrs ensures ByteApart(carried, codes, a, |carried|) {
        assert Sound(At(settled, a), base[a], On(codes));
      }
    }
  }

  // ---- the condition at the save -------------------------------------------------------------

  /** Codes i and j are two writers of byte a with hash id. */
  ghost predicate BothWrote(st: State, codes: seq<Code>, id: nat, a: nat, i: nat, j: nat)
  {
    i in Writers(st, a) && j in Writers(st, a) && i < j < |codes| && codes[i].id == id == codes[j].id
  }

  ghost predicate Shared(st: State, codes: seq<Code>, id: nat)
  {
    exists a: nat, i: nat, j: nat :: BothWrote(st, codes, id, a, i, j)
  }

  /** No byte of the journal has two writers of one hash that the list enables. */
  ghost predicate SavedApart(st: State, codes: seq<Code>, list: seq<Code>)
  {
    forall id: nat | Shared(st, codes, id) :: Match(list, id, 0) == |list|
  }

  /** Carried codes x and y both have hash id and name byte a. */
  ghost predicate BothName(carried: seq<Carried>, id: nat, a: nat, x: nat, y: nat)
  {
    x < y < |carried| && carried[x].id == id == carried[y].id && a in carried[x].addrs && a in carried[y].addrs
  }

  ghost predicate TwiceNamed(carried: seq<Carried>, id: nat)
  {
    exists a: nat, x: nat, y: nat :: BothName(carried, id, a, x, y)
  }

  lemma NamedClash(carried: seq<Carried>, list: seq<Code>, id: nat, a: nat, x: nat, y: nat)
    requires BothName(carried, id, a, x, y) && Match(list, id, 0) < |list|
    ensures !ByteApart(carried, list, a, |carried|)
  {
    assert ClashAt(carried, list, x, y, a);
  }

  lemma ApartByHash(carried: seq<Carried>, list: seq<Code>)
    ensures Apart(carried, list) <==> forall id: nat | TwiceNamed(carried, id) :: Match(list, id, 0) == |list|
  {
    if Apart(carried, list) {
      forall id: nat | TwiceNamed(carried, id) ensures Match(list, id, 0) == |list| {
        var a, x, y :| BothName(carried, id, a, x, y);
        ApartAt(carried, list, a);
        if Match(list, id, 0) < |list| { NamedClash(carried, list, id, a, x, y); }
      }
    }
    if forall id: nat | TwiceNamed(carried, id) :: Match(list, id, 0) == |list| {
      forall a: nat, x: nat, y: nat | x < y < |carried|
        ensures !ClashAt(carried, list, x, y, a)
      {
        assert ClashAt(carried, list, x, y, a) ==> BothName(carried, carried[x].id, a, x, y);
      }
    }
  }

  /** The carried code of a writer. */
  lemma WhoseList(st: State, codes: seq<Code>, carried: seq<Carried>, who: seq<nat>, a: nat, i: nat) returns (x: nat)
    requires ListsWriters(carried, who, st, codes) && i in Writers(st, a)
    ensures x < |carried| && who[x] == i && i < |codes| && carried[x].id == codes[i].id && a in carried[x].addrs
  {
    assert i in who;
    x :| x < |who| && who[x] == i;
    assert ListedAs(carried[x], who[x], st, codes);
  }

  lemma WroteIsNamed(st: State, codes: seq<Code>, carried: seq<Carried>, who: seq<nat>, id: nat, a: nat, i: nat, j: nat)
    returns (x: nat, y: nat)
    requires ListsWriters(carried, who, st, codes) && BothWrote(st, codes, id, a, i, j)
    ensures BothName(carried, id, a, x, y)
  {
    x := WhoseList(st, codes, carried, who, a, i);
    y := WhoseList(st, codes, carried, who, a, j);
  }

  lemma NamedIsWritten(st: State, codes: seq<Code>, carried: seq<Carried>, who: seq<nat>, id: nat)
    requires ListsWriters(carried, who, st, codes) && TwiceNamed(carried, id)
    ensures Shared(st, codes, id)
  {
    var a: nat, x: nat, y: nat :| BothName(carried, id, a, x, y);
    assert ListedAs(carried[x], who[x], st, codes) && ListedAs(carried[y], who[y], st, codes);
    assert BothWrote(st, codes, id, a, who[x], who[y]);
  }

  lemma SharedIsNamed(st: State, codes: seq<Code>, carried: seq<Carried>, who: seq<nat>)
    requires ListsWriters(carried, who, st, codes)
    ensures forall id: nat :: Shared(st, codes, id) <==> TwiceNamed(carried, id)
  {
    forall id: nat | Shared(st, codes, id) ensures TwiceNamed(carried, id) {
      var a, i, j :| BothWrote(st, codes, id, a, i, j);
      var x, y := WroteIsNamed(st, codes, carried, who, id, a, i, j);
    }
    forall id: nat | TwiceNamed(carried, id) ensures Shared(st, codes, id) {
      NamedIsWritten(st, codes, carried, who, id);
    }
  }

  /** The condition can be read off the journal when it is saved. */
  lemma ApartAtSave(st: State, codes: seq<Code>, carried: seq<Carried>, who: seq<nat>, list: seq<Code>)
    requires ListsWriters(carried, who, st, codes)
    ensures Apart(carried, list) <==> SavedApart(st, codes, list)
  {
    SharedIsNamed(st, codes, carried, who);
    ApartByHash(carried, list);
  }

  /** A list in which no hash comes twice saves a journal that settles beside any list. */
  ghost predicate IdsOnce(carried: seq<Carried>) {
    forall x, y | 0 <= x < y < |carried| :: carried[x].id != carried[y].id
  }

  lemma DistinctSave(st: State, codes: seq<Code>, carried: seq<Carried>, who: seq<nat>)
    requires ListsWriters(carried, who, st, codes) && DistinctIds(codes)
    ensures IdsOnce(carried)
  {
    forall x, y | 0 <= x < y < |carried| ensures carried[x].id != carried[y].id {
      assert ListedAs(carried[x], who[x], st, codes) && ListedAs(carried[y], who[y], st, codes);
    }
  }

  // ---- the account a session keeps -------------------------------------------------------------

  /** What holds between events: every journaled byte knows its content before any code. */
  ghost predicate Accounts(e: Engine, base: seq<nat>)
    reads e
  {
    && AllAnalog(e.codes)
    && if e.carried == [] then Inv(e.St(), base, e.Live())
       else Held(e.St(), e.carried, base) && Addressed(e.carried) && e.wasEnabled == []
  }

  lemma RunKeeps(clean: State, base: seq<nat>, codes: seq<Code>, r: State)
    requires Inv(clean, base, On(codes)) && AllAnalog(codes)
    requires r == RunCodes(clean, codes, EnabledAmong(codes, |codes|))
    ensures Inv(r, base, On(codes)) && (On(codes) == {} ==> r == State(base, map[]))
  {
    InvRunCodes(clean, base, On(codes), codes, EnabledAmong(codes, |codes|));
    if On(codes) == {} { NothingLeft(r, base); }
  }

  lemma UndoneKeeps(st: State, base: seq<nat>, live: set<nat>, codes: seq<Code>, clean: State)
    requires Inv(st, base, live) && UndoneState(st, On(codes), clean)
    ensures Inv(clean, base, On(codes))
  {
    InvUndone(st, clean, base, live, On(codes));
    forall a: nat | a < MEM ensures Sound(At(clean, a), base[a], On(codes)) {
      assert Sound(At(clean, a), base[a], live * On(codes));
    }
  }

  /** A frame with the codes in `on` enabled, whatever state it finds. */
  method RunFrame(e: Engine, on: set<nat>) returns (ghost clean: State)
    requires e.Valid() && (e.carried != [] ==> Addressed(e.carried) && e.wasEnabled == [])
    modifies e
    ensures e.Valid() && e.carried == [] && e.codes == Chosen(old(e.codes), on) && e.Live() == On(e.codes)
    ensures |clean.mem| == MEM && Cleaned(old(e.St()), old(e.carried), e.codes, old(e.wasEnabled), clean)
    ensures old(e.carried) == [] && TrackedBy(old(e.St()), e.codes, old(e.wasEnabled)) ==>
      UndoneState(old(e.St()), On(e.codes), clean)
    ensures e.St() == RunCodes(clean, e.codes, EnabledAmong(e.codes, |e.codes|))
    ensures e.codes != [] ==> |e.wasEnabled| == |e.codes|
  {
    e.SetEnabled(on);
    clean := e.Run();
  }

  /** One frame, unless it would settle a loaded journal in which two enabled codes of one hash name
      the same byte: the account is kept, and with no code on memory is its content before any
      code. */
  method PlayFrame(e: Engine, on: set<nat>, ghost base: seq<nat>) returns (ghost clean: State)
    requires Accounts(e, base) && (e.carried != [] ==> Apart(e.carried, Chosen(e.codes, on)))
    modifies e
    ensures Accounts(e, base) && e.carried == [] && e.codes == Chosen(old(e.codes), on)
    ensures on == {} ==> e.St() == State(base, map[])
    ensures |clean.mem| == MEM && Cleaned(old(e.St()), old(e.carried), e.codes, old(e.wasEnabled), clean)
    ensures e.St() == RunCodes(clean, e.codes, EnabledAmong(e.codes, |e.codes|))
  {
    ghost var before, carried, live := e.St(), e.carried, e.Live();
    if carried == [] {
      LiveIsTracked(before, base, live, e.codes);
      assert forall i | i in live :: e.Was(i);
    }
    clean := RunFrame(e, on);
    if carried == [] {
      UndoneKeeps(before, base, live, e.codes, clean);
    } else {
      SettledExact(before, carried, e.codes, clean, base);
    }
    RunKeeps(clean, base, e.codes, e.St());
  }

  /** A loaded journal saved again: no writers of its own, the carried ones as they were. */
  lemma HeldUnwritten(st: State, carried: seq<Carried>, base: seq<nat>)
    requires Held(st, carried, base)
    ensures forall a | a in st.orig :: st.orig[a].writers == []
  {
    forall a | a in st.orig ensures st.orig[a].writers == [] {
      assert HeldAt(At(st, a), base[a], Names(carried, a));
    }
  }

  lemma HeldAgain(st: State, carried: seq<Carried>, base: seq<nat>, r: State)
    requires Held(st, carried, base) && LoadedFrom(st, r)
    ensures Held(r, carried, base)
  {
    forall a: nat | a < MEM ensures HeldAt(At(r, a), base[a], Names(carried, a)) {
      assert HeldAt(At(st, a), base[a], Names(carried, a));
    }
  }

  /** An empty journal: memory is what it was before any code. */
  lemma NothingJournaled(st: State, base: seq<nat>, live: set<nat>)
    requires Inv(st, base, live) && st.orig == map[]
    ensures Inv(st, base, {})
  {
    forall a: nat | a < MEM ensures Sound(At(st, a), base[a], {}) {
      assert Sound(At(st, a), base[a], live);
    }
  }

  /** What a load leaves of a chunk saved in state st. */
  ghost predicate Reloaded(st: State, codes: seq<Code>, carried: seq<Carried>, any: bool, e: Engine)
    requires forall a: nat :: Listed(Writers(st, a), codes)
    reads e
  {
    && e.mem == st.mem && e.wasEnabled == [] && any == (st.orig != map[] || carried != [])
    && (!any ==> e.originals == map[] && e.carried == [])
    && (any ==> LoadedFrom(st, e.St()))
    && (any ==> forall a: nat :: Names(e.carried, a) == Names(carried, a) + Ids(Writers(st, a), codes))
  }

  lemma ListedOnce(carried: seq<Carried>, who: seq<nat>, st: State, codes: seq<Code>)
    requires ListsWriters(carried, who, st, codes)
    ensures EachOnce(carried)
  {
    forall c | c in carried ensures Distinct(c.addrs) {
      var k :| 0 <= k < |carried| && carried[k] == c;
      assert ListedAs(carried[k], who[k], st, codes);
    }
  }

  lemma ReloadKeeps(st: State, codes: seq<Code>, live: set<nat>, any: bool, e: Engine, base: seq<nat>)
    requires Inv(st, base, live) && AllWritten(st, codes) && (forall a: nat :: Listed(Writers(st, a), codes))
    requires Reloaded(st, codes, [], any, e) && (any ==> EachOnce(e.carried)) && AllAnalog(e.codes)
    ensures Accounts(e, base) && (e.carried == [] ==> st.orig == map[] && e.originals == map[])
  {
    if any {
      assert forall a: nat :: Names([], a) == {};
      WritersNamed(st, codes, e.carried);
      LoadHolds(st, codes, live, e.St(), e.carried, base);
    } else {
      assert e.St() == st;
      NothingJournaled(st, base, live);
      assert e.Live() == {};
    }
  }

  /** `save_journal`, then `forget_writes` and `load_journal` beside the list given. */
  method Reload(e: Engine, list: seq<Code>) returns (any: bool, ghost who: seq<nat>)
    requires e.Valid() && forall a: nat :: Listed(Writers(e.St(), a), e.codes)
    modifies e
    ensures e.codes == list && Reloaded(old(e.St()), old(e.codes), old(e.carried), any, e)
    ensures any && (forall a | a in old(e.originals) :: old(e.originals)[a].writers == []) ==>
      e.carried == old(e.carried)
    ensures any && old(e.carried) == [] && (forall a | a in old(e.originals) :: Distinct(old(e.originals)[a].writers))
            ==> ListsWriters(e.carried, who, old(e.St()), old(e.codes))
  {
    ghost var st := e.St();
    assert forall a | a in e.originals :: e.originals[a].writers == Writers(st, a);
    var chunk;
    any, chunk, who := e.SaveJournal();
    e.ForgetWrites();
    e.codes := list;
    if any {
      ChunkInMemory(st, chunk);
      var ok := e.LoadJournal(chunk);
      ChunkLoaded(st, chunk, e.St());
    }
  }

  /** A state saved and loaded: the account is kept, and a journal with nothing in it stays empty.
      What it loads is the journal's writers, or what was carried if no frame has run since the
      load before. */
  method PlaySaveLoad(e: Engine, list: seq<Code>, ghost base: seq<nat>) returns (ghost who: seq<nat>)
    requires Accounts(e, base) && AllAnalog(list)
    modifies e
    ensures Accounts(e, base) && e.codes == list && e.mem == old(e.mem)
    ensures old(e.carried) != [] ==> e.carried == old(e.carried)
    ensures old(e.carried) == [] && e.carried != [] ==> ListsWriters(e.carried, who, old(e.St()), old(e.codes))
    ensures old(e.carried) == [] && e.carried == [] ==> old(e.originals) == map[] && e.originals == map[]
    ensures old(e.carried) == [] && old(e.originals) == map[] ==> e.carried == [] && e.St() == old(e.St())
  {
    ghost var st, codes, live, carried := e.St(), e.codes, e.Live(), e.carried;
    if e.carried == [] {
      LiveIsTracked(st, base, live, codes);
    } else {
      HeldUnwritten(st, carried, base);
    }
    var any;
    any, who := Reload(e, list);
    if carried == [] {
      if any { ListedOnce(e.carried, who, st, codes); }
      ReloadKeeps(st, codes, live, any, e, base);
    } else {
      HeldAgain(st, carried, base, e.St());
    }
  }

  // ---- any history ------------------------------------------------------------------------------

  ghost predicate ListsAnalog(history: seq<Event>) { forall ev | ev in history :: ev.SaveLoad? ==> AllAnalog(ev.list) }

  /** The last frame among the first n events has no code on. */
  predicate AllOff(history: seq<Event>, n: nat)
    requires n <= |history|
  {
    n > 0 && match history[n - 1] { case Frame(on) => on == {} case SaveLoad(_) => AllOff(history, n - 1) }
  }

  /** The hashes of a code list, in its order. */
  function AllHashes(codes: seq<Code>): (ids: seq<nat>)
    ensures |ids| == |codes|
  {
    seq(|codes|, i requires 0 <= i < |codes| => codes[i].id)
  }

  lemma HashesDistinct(codes: seq<Code>)
    ensures Distinct(AllHashes(codes)) <==> DistinctIds(codes)
  {
    forall x, y | 0 <= x < y < |codes|
      ensures AllHashes(codes)[x] == AllHashes(codes)[y] <==> codes[x].id == codes[y].id
    {
    }
  }

  /** Every journal saved with writers in it is saved under a list in which no hash comes twice:
      `ids` are those of the list in force, `loaded` says that no frame has run since a load. */
  predicate SavesDistinct(ids: seq<nat>, loaded: bool, history: seq<Event>)
    decreases |history|
  {
    history == [] ||
    match history[0] {
      case Frame(_) => SavesDistinct(ids, false, history[1..])
      case SaveLoad(list) => (loaded || Distinct(ids)) && SavesDistinct(AllHashes(list), true, history[1..])
    }
  }

  /** What such a history has at hand for a load still to settle. */
  ghost predicate Ready(e: Engine, loaded: bool)
    reads e
  {
    IdsOnce(e.carried) && if loaded then e.carried == [] ==> e.originals == map[] else e.carried == []
  }

  lemma IdsOnceApart(carried: seq<Carried>, codes: seq<Code>)
    requires IdsOnce(carried)
    ensures Apart(carried, codes)
  {
  }

  /** Whether the next event settles a loaded journal in which two codes of one hash that the frame
      enables name the same byte. */
  predicate Clashes(e: Engine, ev: Event)
    reads e
  {
    ev.Frame? && e.carried != [] && !Apart(e.carried, Chosen(e.codes, ev.on))
  }

  /** One event of a history. */
  method Play(e: Engine, ev: Event, ghost base: seq<nat>, ghost loaded: bool)
    requires Accounts(e, base) && !Clashes(e, ev) && (ev.SaveLoad? ==> AllAnalog(ev.list))
    modifies e
    ensures Accounts(e, base)
    ensures ev == Frame({}) ==> e.St() == State(base, map[])
    ensures ev.Frame? ==> e.carried == []
    ensures ev.SaveLoad? && old(e.carried) == [] && old(e.originals) == map[] ==>
      e.carried == [] && e.St() == old(e.St())
    ensures AllHashes(e.codes) == if ev.SaveLoad? then AllHashes(ev.list) else old(AllHashes(e.codes))
    ensures old(Ready(e, loaded)) && (ev.SaveLoad? ==> loaded || Distinct(old(AllHashes(e.codes)))) ==>
      Ready(e, ev.SaveLoad?)
  {
    match ev {
      case Frame(on) =>
        ghost var _ := PlayFrame(e, on, base);
      case SaveLoad(list) =>
        ghost var st, codes, carried := e.St(), e.codes, e.carried;
        ghost var who := PlaySaveLoad(e, list, base);
        if carried == [] && e.carried != [] && Distinct(AllHashes(codes)) {
          HashesDistinct(codes);
          DistinctSave(st, codes, e.carried, who);
        }
    }
  }

  /** A history of frames and of saves and loads, up to the first frame that settles a clash: every
      journaled byte keeps its original, and once the last frame has had no code on, memory is what
      it was before any code. Nothing clashes without a save, nor when no list saved under lists a
      hash twice. */
  method Session(e: Engine, history: seq<Event>, ghost base: seq<nat>) returns (k: nat)
    requires Accounts(e, base) && ListsAnalog(history)
    modifies e
    ensures k <= |history| && Accounts(e, base) && (k < |history| ==> Clashes(e, history[k]))
    ensures AllOff(history, k) ==> e.St() == State(base, map[])
    ensures old(e.carried) == [] && SavesDistinct(old(AllHashes(e.codes)), false, history) ==> k == |history|
  {
    k := 0;
    ghost var loaded, distinct := false, e.carried == [] && SavesDistinct(AllHashes(e.codes), false, history);
    while k < |history|
      invariant k <= |history| && Accounts(e, base)
      invariant AllOff(history, k) ==> e.St() == State(base, map[]) && e.carried == []
      invariant distinct ==> Ready(e, loaded) && SavesDistinct(AllHashes(e.codes), loaded, history[k..])
    {
      assert history[k] in history && history[k..][0] == history[k] && history[k..][1..] == history[k + 1..];
      if Clashes(e, history[k]) {
        if distinct { IdsOnceApart(e.carried, Chosen(e.codes, history[k].on)); }
        return;
      }
      Play(e, history[k], base, loaded);
      loaded := history[k].SaveLoad?;
      k := k + 1;
    }
  }

  lemma {:induction false} NoSaves(ids: seq<nat>, loaded: bool, history: seq<Event>)
    requires forall ev | ev in history :: ev.Frame?
    ensures SavesDistinct(ids, loaded, history)
    decreases |history|
  {
    if history != [] {
      assert history[0] in history;
      NoSaves(ids, false, history[1..]);
    }
  }

  /** Frames alone, from an engine that has run nothing yet: nothing is asked of the hashes. */
  method Frames(codes: seq<Code>, mem: seq<nat>, history: seq<Event>) returns (e: Engine)
    requires |mem| == MEM && AllAnalog(codes) && forall ev | ev in history :: ev.Frame?
    ensures Accounts(e, mem)
    ensures AllOff(history, |history|) ==> e.mem == mem && e.originals == map[]
  {
    e := new Engine(codes, mem);
    NoSaves(AllHashes(codes), false, history);
    var k := Session(e, history, mem);
  }

  /** Any history from an engine that has run nothing yet. */
  method FreshSession(codes: seq<Code>, mem: seq<nat>, history: seq<Event>) returns (e: Engine, k: nat)
    requires |mem| == MEM && AllAnalog(codes) && ListsAnalog(history)
    ensures k <= |history| && Accounts(e, mem) && (k < |history| ==> Clashes(e, history[k]))
    ensures SavesDistinct(AllHashes(codes), false, history) ==> k == |history|
    ensures AllOff(history, k) ==> e.mem == mem && e.originals == map[]
  {
    e := new Engine(codes, mem);
    k := Session(e, history, mem);
  }
}
