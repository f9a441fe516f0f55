/** The cheat journal across a save state (src/core/cheat/ar_engine.cpp): saved by code hash,
    loaded beside another code list, and settled by the next run as if nothing had been saved. */
module CheatCarry {
  import opened CheatJournal

  ghost predicate DistinctIds(codes: seq<Code>)
  {
    forall x, y | 0 <= x < y < |codes| :: codes[x].id != codes[y].id
  }

  ghost predicate AllAnalog(codes: seq<Code>) { forall k | 0 <= k < |codes| :: codes[k].analog }

  ghost predicate Listed(ws: seq<nat>, codes: seq<Code>) { forall i | i in ws :: i < |codes| }

  /** The hashes of the codes in ws. */
  ghost function Ids(ws: seq<nat>, codes: seq<Code>): set<nat>
    requires Listed(ws, codes)
  {
    set i | i in ws :: codes[i].id
  }

  ghost function EnabledIds(codes: seq<Code>): set<nat>
  {
    set i: nat | i < |codes| && codes[i].enabled :: codes[i].id
  }

  function On(codes: seq<Code>): (on: set<nat>)
    ensures forall i: nat :: i in on <==> i < |codes| && codes[i].enabled
  {
    set i: nat | i < |codes| && codes[i].enabled
  }

  /** The writers a list of carried codes names for byte a. */
  ghost function Names(carried: seq<Carried>, a: nat): set<nat>
  {
    set c | c in carried && a in c.addrs :: c.id
  }

  /** carried names exactly the writers the journal of st holds. */
  ghost predicate Carries(carried: seq<Carried>, st: State, codes: seq<Code>)
  {
    forall a: nat | a < MEM :: Listed(Writers(st, a), codes) && Names(carried, a) == Ids(Writers(st, a), codes)
  }

  /** A loaded journal: the entries, with no writer known yet. */
  ghost predicate LoadedFrom(st: State, r: State)
  {
    && st.Ok() && r.Ok() && r.mem == st.mem
    && forall a: nat | a < MEM ::
         if a in st.orig then a in r.orig && r.orig[a] == st.orig[a].(writers := []) else a !in r.orig
  }

  // ---- settle_carried -------------------------------------------------------------------

  /** The enabled code with hash id, or |codes|. */
  function Match(codes: seq<Code>, id: nat, i: nat): (m: nat)
    requires i <= |codes|
    ensures i <= m <= |codes| && (m < |codes| ==> codes[m].enabled && codes[m].id == id)
    ensures m == |codes| ==> forall j | i <= j < |codes| :: !(codes[j].enabled && codes[j].id == id)
    decreases |codes| - i
  {
    if i == |codes| || (codes[i].enabled && codes[i].id == id) then i else Match(codes, id, i + 1)
  }

  /** i once per mention of a. */
  function Hits(addrs: seq<nat>, a: nat, i: nat, n: nat): (ws: seq<nat>)
    requires n <= |addrs|
    ensures forall x | x in ws :: x == i
    ensures ws != [] <==> a in addrs[..n]
  {
    if n == 0 then []
    else
      assert addrs[..n] == addrs[..n - 1] + [addrs[n - 1]];
      if addrs[n - 1] == a then Hits(addrs, a, i, n - 1) + [i] else Hits(addrs, a, i, n - 1)
  }

  /** The enabled writer of byte a that carried code c brings back, if any. */
  function MatchedBy(c: Carried, codes: seq<Code>, a: nat): (ws: seq<nat>)
    ensures Listed(ws, codes)
  {
    var m := Match(codes, c.id, 0);
    if m < |codes| then Hits(c.addrs, a, m, |c.addrs|) else []
  }

  /** The enabled writers of byte a that the first n carried codes bring back. */
  function Matched(carried: seq<Carried>, codes: seq<Code>, a: nat, n: nat): (ws: seq<nat>)
    requires n <= |carried|
    ensures Listed(ws, codes)
  {
    if n == 0 then [] else Matched(carried, codes, a, n - 1) + MatchedBy(carried[n - 1], codes, a)
  }

  /** A disabled or vanished code among the first n wrote byte a. */
  predicate Gone(carried: seq<Carried>, codes: seq<Code>, a: nat, n: nat)
    requires n <= |carried|
  {
    n > 0 &&
    (Gone(carried, codes, a, n - 1) ||
     (Match(codes, carried[n - 1].id, 0) == |codes| && a in carried[n - 1].addrs))
  }

  /** `settle_carried` at one byte: enabled writers keep it; with none, a gone writer's byte goes
      back. A byte named but not journaled gains an empty entry. */
  function SettledCell(c: Cell, matched: seq<nat>, gone: bool): Cell
  {
    var o := if c.entry.Some? then c.entry.o else Original(0, 0, []);
    if matched != [] then Cell(c.byte, Some(o.(writers := o.writers + matched)))
    else if gone && c.entry.Some? && o.writers == [] then Cell(Restored(c.byte, o), None)
    else c
  }

  ghost predicate SettledState(st: State, carried: seq<Carried>, codes: seq<Code>, r: State)
  {
    && st.Ok() && r.Ok()
    && forall a: nat | a < MEM ::
         At(r, a) == SettledCell(At(st, a), Matched(carried, codes, a, |carried|), Gone(carried, codes, a, |carried|))
  }

  lemma {:induction false} MatchedIds(carried: seq<Carried>, codes: seq<Code>, a: nat, n: nat)
    requires n <= |carried|
    ensures Ids(Matched(carried, codes, a, n), codes) == Names(carried[..n], a) * EnabledIds(codes)
    ensures Gone(carried, codes, a, n) || Matched(carried, codes, a, n) != [] || Names(carried[..n], a) == {}
  {
    if n > 0 {
      MatchedIds(carried, codes, a, n - 1);
      var c := carried[n - 1];
      IdsPlus(Matched(carried, codes, a, n - 1), MatchedBy(c, codes, a), codes);
      NamesPlus(carried, a, n);
      MatchedByIds(c, codes, a);
    }
  }

  lemma IdsPlus(u: seq<nat>, v: seq<nat>, codes: seq<Code>)
    requires Listed(u, codes) && Listed(v, codes)
    ensures Listed(u + v, codes) && Ids(u + v, codes) == Ids(u, codes) + Ids(v, codes)
  {
  }

  lemma NamesPlus(carried: seq<Carried>, a: nat, n: nat)
    requires 0 < n <= |carried|
    ensures Names(carried[..n], a) ==
      Names(carried[..n - 1], a) + if a in carried[n - 1].addrs then {carried[n - 1].id} else {}
  {
    assert carried[..n] == carried[..n - 1] + [carried[n - 1]];
  }

  lemma MatchedByIds(c: Carried, codes: seq<Code>, a: nat)
    ensures Ids(MatchedBy(c, codes, a), codes) == (if a in c.addrs then {c.id} else {}) * EnabledIds(codes)
    ensures a in c.addrs ==> MatchedBy(c, codes, a) != [] || Match(codes, c.id, 0) == |codes|
  {
    var m := Match(codes, c.id, 0);
    assert c.addrs[..|c.addrs|] == c.addrs;
    if m < |codes| {
      var ws := MatchedBy(c, codes, a);
      assert codes[m].id in EnabledIds(codes);
      if a in c.addrs {
        assert ws[0] in ws;
        assert Ids(ws, codes) == {c.id};
      }
    }
  }

  // ---- the two ways agree ---------------------------------------------------------------

  /** Same memory, same journaled bytes and originals, same writers by hash. */
  ghost predicate Alike(st: State, codes: seq<Code>, r: State, codes2: seq<Code>)
  {
    && st.Ok() && r.Ok() && st.mem == r.mem
    && forall a: nat | a < MEM :: AlikeAt(At(st, a), codes, At(r, a), codes2)
  }

  ghost predicate AlikeAt(c: Cell, codes: seq<Code>, d: Cell, codes2: seq<Code>)
  {
    && c.byte == d.byte && c.entry.Some? == d.entry.Some?
    && (c.entry.Some? ==>
          && c.entry.o.value == d.entry.o.value && c.entry.o.wrote == d.entry.o.wrote
          && Listed(c.entry.o.writers, codes) && Listed(d.entry.o.writers, codes2)
          && Ids(c.entry.o.writers, codes) == Ids(d.entry.o.writers, codes2))
  }

  /** With distinct hashes, keeping the enabled writers is keeping the enabled hashes. */
  lemma KeptIds(ws: seq<nat>, codes: seq<Code>)
    requires Listed(ws, codes) && DistinctIds(codes)
    ensures Listed(Kept(ws, On(codes)), codes)
    ensures Ids(Kept(ws, On(codes)), codes) == Ids(ws, codes) * EnabledIds(codes)
  {
    KeptElements(ws, On(codes));
    forall id | id in Ids(ws, codes) * EnabledIds(codes)
      ensures id in Ids(Kept(ws, On(codes)), codes)
    {
      var i :| i in ws && codes[i].id == id;
      var j: nat :| j < |codes| && codes[j].enabled && codes[j].id == id;
      assert i == j;
      assert i in Kept(ws, On(codes));
    }
  }

  lemma NoIds(ws: seq<nat>, codes: seq<Code>)
    requires Listed(ws, codes)
    ensures Ids(ws, codes) == {} <==> ws == []
  {
    if ws != [] {
      assert ws[0] in ws;
      assert codes[ws[0]].id in Ids(ws, codes);
    }
  }

  /** One byte: undone by the enabled codes here, or settled by those of the other list. */
  lemma SettleLikeUndo(c: Cell, codes: seq<Code>, d: Cell, codes2: seq<Code>, matched: seq<nat>, gone: bool)
    requires c.entry.Some? ==> Listed(c.entry.o.writers, codes) && c.entry.o.writers != []
    requires DistinctIds(codes) && Listed(matched, codes2)
    requires d == if c.entry.Some? then Cell(c.byte, Some(c.entry.o.(writers := []))) else c
    requires Ids(matched, codes2) == if c.entry.Some? then Ids(c.entry.o.writers, codes) * EnabledIds(codes) else {}
    requires c.entry.Some? && matched == [] ==> gone
    ensures AlikeAt(Undone(c, On(codes)), codes, SettledCell(d, matched, gone), codes2)
  {
    NoIds(matched, codes2);
    if c.entry.Some? {
      var ws := c.entry.o.writers;
      KeptIds(ws, codes);
      NoIds(Kept(ws, On(codes)), codes);
      assert [] + matched == matched;
    }
  }

  /** The undo phase of a run on the live journal, and the settling of the journal saved from it
      and loaded beside a list with the same hashes enabled: alike, whatever the lists' orders. */
  lemma SettledLikeUndone(st: State, codes: seq<Code>, undone: State,
                          loaded: State, carried: seq<Carried>, codes2: seq<Code>, settled: State)
    requires DistinctIds(codes) && EnabledIds(codes) == EnabledIds(codes2)
    requires forall a | a in st.orig :: st.orig[a].writers != []
    requires Carries(carried, st, codes) && LoadedFrom(st, loaded)
    requires UndoneState(st, On(codes), undone) && SettledState(loaded, carried, codes2, settled)
    ensures Alike(undone, codes, settled, codes2)
  {
    forall a: nat | a < MEM
      ensures AlikeAt(At(undone, a), codes, At(settled, a), codes2)
    {
      var matched, gone := Matched(carried, codes2, a, |carried|), Gone(carried, codes2, a, |carried|);
      MatchedIds(carried, codes2, a, |carried|);
      assert carried[..|carried|] == carried;
      NoIds(Writers(st, a), codes);
      SettleLikeUndo(At(st, a), codes, At(loaded, a), codes2, matched, gone);
      assert At(undone, a) == Undone(At(st, a), On(codes));
      assert At(settled, a) == SettledCell(At(loaded, a), matched, gone);
    }
    forall a: nat | a < MEM
      ensures undone.mem[a] == settled.mem[a]
    {
      assert AlikeAt(At(undone, a), codes, At(settled, a), codes2);
    }
  }

  lemma AddIds(ws: seq<nat>, i: nat, codes: seq<Code>)
    requires Listed(ws, codes) && i < |codes|
    ensures Listed(Add(ws, i), codes) && Ids(Add(ws, i), codes) == Ids(ws, codes) + {codes[i].id}
  {
  }

  /** The same store by the same code keeps two states alike. */
  lemma StoredAlike(st: State, codes: seq<Code>, i: nat, r: State, codes2: seq<Code>, j: nat, track: bool, w: Write)
    requires Alike(st, codes, r, codes2) && i < |codes| && j < |codes2| && codes[i].id == codes2[j].id
    ensures Alike(Stored(st, i, track, w), codes, Stored(r, j, track, w), codes2)
  {
    StoredOk(st, i, track, w);
    StoredOk(r, j, track, w);
    forall a: nat | a < MEM
      ensures AlikeAt(At(Stored(st, i, track, w), a), codes, At(Stored(r, j, track, w), a), codes2)
    {
      assert AlikeAt(At(st, a), codes, At(r, a), codes2);
      AddIds(Writers(st, a), i, codes);
      AddIds(Writers(r, a), j, codes2);
    }
  }

  lemma {:induction false} PlayedAlike(st: State, codes: seq<Code>, i: nat, r: State, codes2: seq<Code>, j: nat,
                                       track: bool, ws: seq<Write>, k: nat)
    requires Alike(st, codes, r, codes2) && i < |codes| && j < |codes2| && codes[i].id == codes2[j].id && k <= |ws|
    ensures Alike(Played(st, i, track, ws, k), codes, Played(r, j, track, ws, k), codes2)
    decreases |ws| - k
  {
    if k < |ws| {
      StoredAlike(st, codes, i, r, codes2, j, track, ws[k]);
      PlayedAlike(Stored(st, i, track, ws[k]), codes, i, Stored(r, j, track, ws[k]), codes2, j, track, ws, k + 1);
    }
  }

  /** ix and jx list the same codes: same hashes, flags and stores, in the same order. */
  ghost predicate SameCodes(codes: seq<Code>, ix: seq<nat>, codes2: seq<Code>, jx: seq<nat>)
  {
    && |ix| == |jx| && Listed(ix, codes) && Listed(jx, codes2)
    && forall k | 0 <= k < |ix| :: SameCode(codes, ix[k], codes2, jx[k])
  }

  ghost predicate SameCode(codes: seq<Code>, i: nat, codes2: seq<Code>, j: nat)
  {
    && i < |codes| && j < |codes2| && codes[i].id == codes2[j].id
    && codes[i].analog == codes2[j].analog && codes[i].stores == codes2[j].stores
  }

  /** Running the same codes in the same order keeps two states alike. */
  lemma {:induction false} RunAlike(st: State, codes: seq<Code>, ix: seq<nat>, r: State, codes2: seq<Code>,
                          jx: seq<nat>)
    requires Alike(st, codes, r, codes2) && SameCodes(codes, ix, codes2, jx)
    ensures Alike(RunCodes(st, codes, ix), codes, RunCodes(r, codes2, jx), codes2)
    decreases |ix|
  {
    if ix != [] {
      var n := |ix| - 1;
      assert forall x | x in ix[..n] :: x in ix;
      assert forall x | x in jx[..n] :: x in jx;
      RunAlike(st, codes, ix[..n], r, codes2, jx[..n]);
      var s, t := RunCodes(st, codes, ix[..n]), RunCodes(r, codes2, jx[..n]);
      assert SameCode(codes, ix[n], codes2, jx[n]);
      PlayedAlike(s, codes, ix[n], t, codes2, jx[n], codes[ix[n]].analog, codes[ix[n]].stores(s.mem), 0);
    }
  }

  lemma SameEnabledIds(codes: seq<Code>, codes2: seq<Code>)
    requires SameCodes(codes, EnabledAmong(codes, |codes|), codes2, EnabledAmong(codes2, |codes2|))
    ensures EnabledIds(codes) == EnabledIds(codes2)
  {
    EnabledListed(codes, |codes|);
    EnabledListed(codes2, |codes2|);
    ListedIds(codes, EnabledAmong(codes, |codes|));
    ListedIds(codes2, EnabledAmong(codes2, |codes2|));
    SameIds(codes, EnabledAmong(codes, |codes|), codes2, EnabledAmong(codes2, |codes2|));
  }

  lemma ListedIds(codes: seq<Code>, ix: seq<nat>)
    requires Listed(ix, codes) && forall i: nat :: i in ix <==> i < |codes| && codes[i].enabled
    ensures EnabledIds(codes) == Ids(ix, codes)
  {
  }

  lemma SameIds(codes: seq<Code>, ix: seq<nat>, codes2: seq<Code>, jx: seq<nat>)
    requires SameCodes(codes, ix, codes2, jx)
    ensures Ids(ix, codes) == Ids(jx, codes2)
  {
    forall id | id in Ids(ix, codes)
      ensures id in Ids(jx, codes2)
    {
      var k :| 0 <= k < |ix| && codes[ix[k]].id == id;
      assert SameCode(codes, ix[k], codes2, jx[k]) && jx[k] in jx;
    }
    forall id | id in Ids(jx, codes2)
      ensures id in Ids(ix, codes)
    {
      var k :| 0 <= k < |jx| && codes2[jx[k]].id == id;
      assert SameCode(codes, ix[k], codes2, jx[k]) && ix[k] in ix;
    }
  }

  lemma {:induction false} EnabledListed(codes: seq<Code>, n: nat)
    requires n <= |codes|
    ensures forall i: nat :: i in EnabledAmong(codes, n) <==> i < n && codes[i].enabled
  {
    if n > 0 {
      EnabledListed(codes, n - 1);
    }
  }

  /** A run after saving and loading leaves the same memory, originals and writers by hash as a
      run with no save in between, when the enabled codes come in the same order. */
  lemma SaveLoadRun(st: State, codes: seq<Code>, undone: State,
                    loaded: State, carried: seq<Carried>, codes2: seq<Code>, settled: State)
    requires DistinctIds(codes) && forall a | a in st.orig :: st.orig[a].writers != []
    requires Carries(carried, st, codes) && LoadedFrom(st, loaded)
    requires UndoneState(st, On(codes), undone) && SettledState(loaded, carried, codes2, settled)
    requires SameCodes(codes, EnabledAmong(codes, |codes|), codes2, EnabledAmong(codes2, |codes2|))
    ensures Alike(RunCodes(undone, codes, EnabledAmong(codes, |codes|)), codes,
                  RunCodes(settled, codes2, EnabledAmong(codes2, |codes2|)), codes2)
  {
    SameEnabledIds(codes, codes2);
    SettledLikeUndone(st, codes, undone, loaded, carried, codes2, settled);
    RunAlike(undone, codes, EnabledAmong(codes, |codes|), settled, codes2, EnabledAmong(codes2, |codes2|));
  }
}
