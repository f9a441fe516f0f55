/** The Action Replay engine of src/core/cheat/ar_engine.cpp: a frame's run, the undoing of
    disabled codes, and the journal's save and load. */
module CheatEngine {
  import Basics
  import opened CheatJournal
  import opened CheatCarry

  /** The journal chunk of a save state. */
  datatype Chunk = Chunk(addrs: seq<nat>, values: seq<nat>, wrote: seq<nat>, writers: seq<Carried>) {
    /** The journal's bytes, by address. */
    ghost predicate Holds(m: map<nat, Original>)
    {
      && Basics.Increasing(addrs) && |addrs| == |values| == |wrote| && (forall a :: a in addrs <==> a in m)
      && forall k | 0 <= k < |addrs| :: addrs[k] in m && values[k] == m[addrs[k]].value && wrote[k] == m[addrs[k]].wrote
    }
  }

  /** The journal once the first n bytes of a store have joined it, before it lands. */
  ghost predicate Noted(before: State, i: nat, w: Store, n: nat, m: map<nat, Original>)
    requires |before.mem| == MEM
  {
    (forall a | a in m :: a < MEM) && forall a: nat | a < MEM :: NotedAt(before, i, w, n, a, m)
  }

  ghost predicate NotedAt(before: State, i: nat, w: Store, n: nat, a: nat, m: map<nat, Original>)
    requires a < |before.mem|
  {
    if w.addr <= a < w.addr + n then
      a in m && m[a].value == Value(before, a) && m[a].writers == Add(Writers(before, a), i)
    else (a in m <==> a in before.orig) && (a in m ==> m[a] == before.orig[a])
  }

  /** The journal noted before a store and the bytes it left make the tracked store. */
  lemma NotedIsStored(before: State, i: nat, w: Write, noted: map<nat, Original>, r: State)
    requires before.Ok() && r.Ok() && Noted(before, i, w, |w.bytes|, noted)
    requires r.mem == before.mem[..w.addr] + w.bytes + before.mem[w.addr + |w.bytes|..]
    requires r.orig.Keys == noted.Keys
    requires forall a | a in r.orig :: r.orig[a] == if Covers(w, a) then noted[a].(wrote := r.mem[a]) else noted[a]
    ensures r == Stored(before, i, true, w)
  {
    var s := Stored(before, i, true, w);
    forall a: nat | a < MEM
      ensures At(r, a) == At(s, a)
    {
      assert NotedAt(before, i, w, |w.bytes|, a, noted);
    }
    SameIsEqual(r, s);
  }

  function Entered(c: Cell): Original { if c.entry.Some? then c.entry.o else Original(0, 0, []) }

  /** Writers brought back by two carried codes, one after the other. */
  lemma MoreWriters(c: Cell, u: seq<nat>, v: seq<nat>)
    ensures SettledCell(SettledCell(c, u, false), v, false) == SettledCell(c, u + v, false)
  {
    var o := Entered(c);
    if u == [] {
      assert u + v == v;
    } else if v == [] {
      assert u + v == u;
    } else {
      var d := SettledCell(c, u, false);
      assert d == Cell(c.byte, Some(o.(writers := o.writers + u)));
      assert SettledCell(d, v, false) == Cell(c.byte, Some(o.(writers := o.writers + u + v)));
      assert o.writers + (u + v) == o.writers + u + v;
      assert |u + v| > 0;
    }
  }

  ghost predicate Addressed(list: seq<Carried>) { forall c | c in list :: forall a | a in c.addrs :: a < MEM }

  ghost predicate Wrote(list: seq<Carried>, a: nat) { exists c :: c in list && a in c.addrs }

  lemma WroteMore(list: seq<Carried>, c: Carried)
    ensures forall a: nat :: Wrote(list + [c], a) == (Wrote(list, a) || a in c.addrs)
  {
    forall a: nat
      ensures Wrote(list + [c], a) == (Wrote(list, a) || a in c.addrs)
    {
      assert c in list + [c];
      if Wrote(list, a) {
        var d :| d in list && a in d.addrs;
        assert d in list + [c];
      }
    }
  }

  /** One more enabled writer brought back. */
  lemma OneMoreWriter(c: Cell, u: seq<nat>, m: nat)
    ensures var o := Entered(SettledCell(c, u, false));
      SettledCell(c, u + [m], false) == Cell(c.byte, Some(o.(writers := o.writers + [m])))
  {
    MoreWriters(c, u, [m]);
  }

  /** The first n carried codes settled, no byte given back yet. */
  ghost predicate Taken(before: State, carried: seq<Carried>, codes: seq<Code>, n: nat, r: State)
    requires n <= |carried|
  {
    && before.Ok() && r.Ok()
    && forall a: nat | a < MEM :: At(r, a) == SettledCell(At(before, a), Matched(carried, codes, a, n), false)
  }

  lemma TakenOne(before: State, carried: seq<Carried>, codes: seq<Code>, n: nat, mid: State, r: State)
    requires n < |carried| && Taken(before, carried, codes, n, mid) && r.Ok()
    requires forall a: nat | a < MEM :: At(r, a) == SettledCell(At(mid, a), MatchedBy(carried[n], codes, a), false)
    ensures Taken(before, carried, codes, n + 1, r)
  {
    forall a: nat | a < MEM
      ensures At(r, a) == SettledCell(At(before, a), Matched(carried, codes, a, n + 1), false)
    {
      assert At(mid, a) == SettledCell(At(before, a), Matched(carried, codes, a, n), false);
      MoreWriters(At(before, a), Matched(carried, codes, a, n), MatchedBy(carried[n], codes, a));
    }
  }

  /** gone lists the disabled and vanished ones among the first n carried codes. */
  ghost predicate GoneListed(gone: seq<Carried>, carried: seq<Carried>, codes: seq<Code>, n: nat)
    requires n <= |carried|
  {
    Addressed(gone) && forall a: nat :: Wrote(gone, a) == Gone(carried, codes, a, n)
  }

  lemma GoneOne(gone: seq<Carried>, carried: seq<Carried>, codes: seq<Code>, n: nat)
    requires n < |carried| && GoneListed(gone, carried, codes, n) && Addressed(carried)
    ensures var more := if Match(codes, carried[n].id, 0) < |codes| then gone else gone + [carried[n]];
      GoneListed(more, carried, codes, n + 1)
  {
    assert carried[n] in carried;
    WroteMore(gone, carried[n]);
  }

  /** The codes not reverted after the undo loop has looked at the first n. */
  ghost function Staying(codes: seq<Code>, was: seq<bool>, n: nat): set<nat>
    requires n <= |codes| == |was|
  {
    set i: nat | i < |codes| && !(i < n && was[i] && !codes[i].enabled)
  }

  /** The undo loop at one byte, once it has looked at the first n codes. */
  function RevertedBy(c: Cell, codes: seq<Code>, was: seq<bool>, n: nat): Cell
    requires n <= |codes| == |was|
  {
    if n == 0 then c
    else
      var d := RevertedBy(c, codes, was, n - 1);
      if was[n - 1] && !codes[n - 1].enabled then RevertCell(d, n - 1) else d
  }

  ghost predicate UndoneBy(before: State, codes: seq<Code>, was: seq<bool>, n: nat, r: State)
    requires n <= |codes| == |was|
  {
    before.Ok() && r.Ok() && forall a: nat | a < MEM :: At(r, a) == RevertedBy(At(before, a), codes, was, n)
  }

  /** A byte whose writers are listed once each keeps those not reverted. */
  lemma {:induction false} RevertedKeeps(c: Cell, codes: seq<Code>, was: seq<bool>, n: nat)
    requires n <= |codes| == |was| && WellWritten(c) && (c.entry.Some? ==> Listed(c.entry.o.writers, codes))
    ensures RevertedBy(c, codes, was, n) == Undone(c, Staying(codes, was, n))
  {
    if n == 0 {
      UndoneAll(c, Staying(codes, was, 0));
    } else {
      RevertedKeeps(c, codes, was, n - 1);
      if was[n - 1] && !codes[n - 1].enabled {
        RevertDrops(c, Staying(codes, was, n - 1), n - 1);
        assert Staying(codes, was, n) == Staying(codes, was, n - 1) - {n - 1};
      } else {
        assert Staying(codes, was, n) == Staying(codes, was, n - 1);
      }
    }
  }

  /** Every journaled byte has writers, each known to have been enabled or still so. */
  ghost predicate TrackedBy(st: State, codes: seq<Code>, was: seq<bool>)
  {
    && AllWritten(st, codes)
    && forall a | a in st.orig :: forall i | i in st.orig[a].writers :: (|was| == |codes| && was[i]) || codes[i].enabled
  }

  /** With every writer once enabled, those not reverted are those still enabled. */
  lemma KeepEnabled(before: State, codes: seq<Code>, was: seq<bool>, r: State)
    requires before.Ok() && TrackedBy(before, codes, was)
    requires if |was| == |codes| then UndoneBy(before, codes, was, |codes|, r) else r == before
    ensures UndoneState(before, On(codes), r)
  {
    forall a: nat | a < MEM
      ensures At(r, a) == Undone(At(before, a), On(codes))
    {
      if |was| == |codes| {
        RevertedKeeps(At(before, a), codes, was, |codes|);
        KeptAgree(Writers(before, a), Staying(codes, was, |codes|), On(codes));
      } else {
        UndoneAll(At(before, a), On(codes));
      }
    }
  }

  lemma {:induction false} NothingReverted(c: Cell, codes: seq<Code>, was: seq<bool>, n: nat)
    requires n <= |codes| == |was| && forall j | 0 <= j < n :: !was[j]
    ensures RevertedBy(c, codes, was, n) == c
  {
    if n > 0 {
      NothingReverted(c, codes, was, n - 1);
    }
  }

  /** Right after a load no code is remembered as enabled, and nothing is undone. */
  lemma NoneRemembered(before: State, codes: seq<Code>, was: seq<bool>, r: State)
    requires |was| == |codes| && UndoneBy(before, codes, was, |codes|, r) && forall j | 0 <= j < |codes| :: !was[j]
    ensures r == before
  {
    forall a: nat | a < MEM
      ensures At(r, a) == At(before, a)
    {
      NothingReverted(At(before, a), codes, was, |codes|);
    }
    SameIsEqual(r, before);
  }

  /** The state the codes of a run start from: a loaded journal settled, or the codes switched off
      since the last frame reverted. */
  ghost predicate Cleaned(before: State, carried: seq<Carried>, codes: seq<Code>, was: seq<bool>, clean: State)
  {
    if carried != [] then SettledState(before, carried, codes, clean)
    else if |was| == |codes| then UndoneBy(before, codes, was, |codes|, clean)
    else clean == before
  }

  lemma OneMoreCode(st: State, codes: seq<Code>, i: nat)
    requires |st.mem| == MEM && i < |codes|
    ensures var r := RunCodes(st, codes, EnabledAmong(codes, i));
      RunCodes(st, codes, EnabledAmong(codes, i + 1)) == if codes[i].enabled then RunCode(r, codes, i) else r
  {
    var ix := EnabledAmong(codes, i);
    assert (ix + [i])[..|ix|] == ix && ix + [] == ix;
  }

  ghost predicate AllWritten(st: State, codes: seq<Code>)
  {
    forall a | a in st.orig ::
      st.orig[a].writers != [] && Distinct(st.orig[a].writers) && Listed(st.orig[a].writers, codes)
  }

  predicate Filed(byCode: map<nat, seq<nat>>, i: nat, a: nat) { i in byCode && a in byCode[i] }

  /** No list names a byte twice. */
  ghost predicate NoneTwice(byCode: map<nat, seq<nat>>) { forall i | i in byCode :: Distinct(byCode[i]) }

  lemma FiledOnce(byCode: map<nat, seq<nat>>, i: nat, a: nat, mine: seq<nat>)
    requires NoneTwice(byCode) && !Filed(byCode, i, a) && mine == if i in byCode then byCode[i] else []
    ensures NoneTwice(byCode[i := mine + [a]])
  {
  }

  lemma FiledMore(byCode: map<nat, seq<nat>>, i: nat, a: nat, mine: seq<nat>)
    requires mine == if i in byCode then byCode[i] else []
    ensures forall j: nat, x: nat :: Filed(byCode[i := mine + [a]], j, x) <==> Filed(byCode, j, x) || (j == i && x == a)
  {
    var r := byCode[i := mine + [a]];
    forall j: nat, x: nat
      ensures Filed(r, j, x) <==> Filed(byCode, j, x) || (j == i && x == a)
    {
      if j == i {
        assert r[j] == mine + [a];
        assert x in r[j] <==> x in mine || x == a;
      } else {
        assert j in r <==> j in byCode;
      }
    }
  }

  /** r is byCode with byte a filed under the first k of its writers. */
  ghost predicate FiledTo(byCode: map<nat, seq<nat>>, r: map<nat, seq<nat>>, a: nat, ws: seq<nat>, k: nat)
    requires k <= |ws|
  {
    forall i: nat, x: nat :: Filed(r, i, x) <==> Filed(byCode, i, x) || (x == a && i in ws[..k])
  }

  lemma FiledToNext(byCode: map<nat, seq<nat>>, r: map<nat, seq<nat>>, a: nat, ws: seq<nat>, k: nat, mine: seq<nat>)
    requires k < |ws| && FiledTo(byCode, r, a, ws, k) && mine == if ws[k] in r then r[ws[k]] else []
    ensures FiledTo(byCode, r[ws[k] := mine + [a]], a, ws, k + 1)
  {
    FiledMore(r, ws[k], a, mine);
    assert ws[..k + 1] == ws[..k] + [ws[k]];
    var r' := r[ws[k] := mine + [a]];
    forall i: nat, x: nat
      ensures Filed(r', i, x) <==> Filed(byCode, i, x) || (x == a && i in ws[..k + 1])
    {
      assert i in ws[..k + 1] <==> i in ws[..k] || i == ws[k];
      assert Filed(r', i, x) <==> Filed(r, i, x) || (i == ws[k] && x == a);
    }
  }

  /** The carried code of code i: its hash, and the bytes it is a writer of, each once. */
  ghost predicate ListedAs(c: Carried, i: nat, st: State, codes: seq<Code>)
  {
    i < |codes| && c.id == codes[i].id && Distinct(c.addrs) && forall a: nat :: a in c.addrs <==> i in Writers(st, a)
  }

  /** The writers of a journal, by code: `who` says whose each entry is. */
  ghost predicate ListsWriters(ws: seq<Carried>, who: seq<nat>, st: State, codes: seq<Code>)
  {
    && |who| == |ws| && Basics.Increasing(who) && (forall k | 0 <= k < |ws| :: ListedAs(ws[k], who[k], st, codes))
    && forall a: nat, i: nat | i in Writers(st, a) :: i in who
  }

  ghost function FiledIds(byCode: map<nat, seq<nat>>, codes: seq<Code>, n: nat, a: nat): set<nat>
    requires n <= |codes|
  {
    set i: nat | i < n && Filed(byCode, i, a) :: codes[i].id
  }

  /** The lists filed under the first n codes, in their order. */
  ghost predicate FromFiles(byCode: map<nat, seq<nat>>, writers: seq<Carried>, who: seq<nat>, codes: seq<Code>, n: nat)
    requires n <= |codes|
  {
    && |who| == |writers| && Basics.Increasing(who) && (forall i: nat | i < n && i in byCode :: i in who)
    && forall k | 0 <= k < |who| ::
         who[k] < n && who[k] in byCode && writers[k] == Carried(codes[who[k]].id, byCode[who[k]])
  }

  lemma WhoseWriters(byCode: map<nat, seq<nat>>, writers: seq<Carried>, who: seq<nat>, st: State, codes: seq<Code>)
    requires FromFiles(byCode, writers, who, codes, |codes|) && NoneTwice(byCode)
    requires forall a: nat :: Listed(Writers(st, a), codes)
    requires forall i: nat, a: nat :: Filed(byCode, i, a) <==> i in Writers(st, a)
    ensures ListsWriters(writers, who, st, codes)
  {
    forall k | 0 <= k < |writers|
      ensures ListedAs(writers[k], who[k], st, codes)
    {
      assert forall a: nat :: a in byCode[who[k]] <==> Filed(byCode, who[k], a);
    }
    forall a: nat, i: nat | i in Writers(st, a)
      ensures i in who
    {
      assert Filed(byCode, i, a);
    }
  }

  lemma FiledIdsAre(byCode: map<nat, seq<nat>>, codes: seq<Code>, st: State, a: nat)
    requires Listed(Writers(st, a), codes) && forall i: nat :: Filed(byCode, i, a) <==> i in Writers(st, a)
    ensures FiledIds(byCode, codes, |codes|, a) == Ids(Writers(st, a), codes)
  {
  }

  lemma NamesConcat(u: seq<Carried>, v: seq<Carried>, a: nat)
    ensures Names(u + v, a) == Names(u, a) + Names(v, a)
  {
  }

  lemma {:induction false} LeastKey(s: set<nat>) returns (m: nat)
    requires s != {}
    ensures m in s && forall x | x in s :: m <= x
    decreases |s|
  {
    var y :| y in s;
    var rest := s - {y};
    m := y;
    assert forall x | x in s :: x == y || x in rest;
    if rest != {} {
      var n := LeastKey(rest);
      m := if y < n then y else n;
    }
  }

  /** The keys in order. */
  method SortedKeys(keys: set<nat>) returns (s: seq<nat>)
    ensures Basics.Increasing(s) && forall a :: a in s <==> a in keys
  {
    s := [];
    var todo := keys;
    while todo != {}
      invariant todo <= keys && Basics.Increasing(s) && (forall a :: a in s <==> a in keys && a !in todo)
      invariant forall x, y | x in s && y in todo :: x < y
      decreases |todo|
    {
      ghost var least := LeastKey(todo);
      var m :| m in todo && forall x | x in todo :: m <= x;
      assert forall x | 0 <= x < |s| :: s[x] in s;
      s := s + [m];
      todo := todo - {m};
    }
  }

  lemma LiveIsTracked(st: State, base: seq<nat>, live: set<nat>, codes: seq<Code>)
    requires Inv(st, base, live) && forall i | i in live :: i < |codes|
    ensures AllWritten(st, codes) && forall a | a in st.orig :: forall i | i in st.orig[a].writers :: i in live
  {
    forall a: nat | a in st.orig
      ensures st.orig[a].writers != [] && Distinct(st.orig[a].writers) && forall i | i in st.orig[a].writers ::
        i in live
    {
      assert Sound(At(st, a), base[a], live);
    }
  }

  lemma ChunkInMemory(st: State, chunk: Chunk)
    requires st.Ok() && chunk.Holds(st.orig)
    ensures forall a | a in chunk.addrs :: a < MEM
  {
  }

  /** A saved chunk loads as the journal it was saved from, its writers left to the carried codes. */
  lemma ChunkLoaded(st: State, chunk: Chunk, r: State)
    requires st.Ok() && r.Ok() && r.mem == st.mem && chunk.Holds(st.orig)
    requires forall a :: a in r.orig <==> a in chunk.addrs
    requires forall k | 0 <= k < |chunk.addrs| ::
      r.orig[chunk.addrs[k]] == Original(chunk.values[k], chunk.wrote[k], [])
    ensures LoadedFrom(st, r)
  {
    forall a: nat | a < MEM && a in st.orig
      ensures a in r.orig && r.orig[a] == st.orig[a].(writers := [])
    {
      assert a in chunk.addrs;
      var k :| 0 <= k < |chunk.addrs| && chunk.addrs[k] == a;
    }
  }

  /** Carried codes that name exactly the journal's writers, every one of them at a journaled byte. */
  lemma WritersNamed(st: State, codes: seq<Code>, carried: seq<Carried>)
    requires st.Ok() && AllWritten(st, codes)
    requires forall a: nat :: Names(carried, a) == Ids(Writers(st, a), codes)
    ensures Addressed(carried) && Carries(carried, st, codes) && (carried == [] ==> st.orig == map[])
  {
    forall c, a | c in carried && a in c.addrs
      ensures a < MEM
    {
      assert c.id in Names(carried, a);
    }
    forall a: nat | a in st.orig
      ensures Names(carried, a) != {}
    {
      NoIds(Writers(st, a), codes);
    }
    assert carried == [] ==> forall a: nat :: Names(carried, a) == {};
    assert carried == [] ==> st.orig.Keys == {};
  }

  /** A state loaded without a journal has nothing to settle. */
  lemma NothingCarried(st: State, codes: seq<Code>, carried: seq<Carried>, r: State)
    requires st.Ok() && (carried == [] ==> st.orig == map[] && UndoneState(st, On(codes), r))
    requires carried != [] ==> SettledState(st, carried, codes, r)
    ensures SettledState(st, carried, codes, r)
  {
    if carried == [] {
      forall a: nat | a < MEM
        ensures At(r, a) == SettledCell(At(st, a), Matched(carried, codes, a, 0), Gone(carried, codes, a, 0))
      {
        assert At(r, a) == Undone(At(st, a), On(codes));
      }
    }
  }

  lemma OneMoreFiled(byCode: map<nat, seq<nat>>, codes: seq<Code>, i: nat, writers: seq<Carried>, c: Carried)
    requires i < |codes| && i in byCode && c == Carried(codes[i].id, byCode[i])
    requires forall a: nat :: Names(writers, a) == FiledIds(byCode, codes, i, a)
    ensures forall a: nat :: Names(writers + [c], a) == FiledIds(byCode, codes, i + 1, a)
  {
    forall a: nat
      ensures Names(writers + [c], a) == FiledIds(byCode, codes, i + 1, a)
    {
      NamesConcat(writers, [c], a);
      assert Names([c], a) == if a in c.addrs then {c.id} else {};
      assert FiledIds(byCode, codes, i + 1, a) == FiledIds(byCode, codes, i, a) + if a in c.addrs then {c.id} else {};
    }
  }

  lemma NoMoreFiled(byCode: map<nat, seq<nat>>, codes: seq<Code>, i: nat)
    requires i < |codes| && i !in byCode
    ensures forall a: nat :: FiledIds(byCode, codes, i + 1, a) == FiledIds(byCode, codes, i, a)
  {
  }

  /** The codes with those whose index is in `on` enabled. */
  function Chosen(codes: seq<Code>, on: set<nat>): (r: seq<Code>)
    ensures |r| == |codes|
  {
    seq(|codes|, i requires 0 <= i < |codes| => codes[i].(enabled := i in on))
  }

  class Engine {
    var codes: seq<Code>
    var mem: seq<nat>
    var originals: map<nat, Original>
    var wasEnabled: seq<bool>
    var carried: seq<Carried>

    ghost function St(): State
      reads this
    {
      State(mem, originals)
    }

    ghost predicate Valid()
      reads this
    {
      St().Ok()
    }

    constructor (codes: seq<Code>, mem: seq<nat>)
      requires |mem| == MEM
      ensures Valid() && this.codes == codes && this.mem == mem && originals == map[] && wasEnabled == []
      ensures carried == []
    {
      this.codes, this.mem := codes, mem;
      originals, wasEnabled, carried := map[], [], [];
    }

    /** `forget_writes`. */
    method ForgetWrites()
      modifies this`originals, this`wasEnabled, this`carried
      ensures originals == map[] && wasEnabled == [] && carried == []
    {
      originals, wasEnabled, carried := map[], [], [];
    }

    /** `restore`. */
    method Restore(a: nat, o: Original)
      requires a < |mem|
      modifies this`mem
      ensures mem == old(mem)[a := Restored(old(mem)[a], o)]
    {
      if mem[a] == o.wrote {
        mem := mem[a := o.value];
      }
    }

    /** Byte a joins the journal, if it is not in it, with i among its writers. */
    method Join(a: nat, i: nat)
      requires Valid() && a < MEM
      modifies this`originals
      ensures originals.Keys == old(originals).Keys + {a}
      ensures forall x | x in old(originals) && x != a :: originals[x] == old(originals)[x]
      ensures originals[a].value == Value(old(St()), a) && originals[a].writers == Add(Writers(old(St()), a), i)
    {
      if a !in originals {
        originals := originals[a := Original(mem[a], 0, [])];
      }
      if i !in originals[a].writers {
        originals := originals[a := originals[a].(writers := originals[a].writers + [i])];
      }
    }

    /** The bytes of a store join the journal before it lands. */
    method JoinAll(i: nat, w: Write)
      requires Valid()
      modifies this`originals
      ensures Noted(old(St()), i, w, |w.bytes|, originals)
    {
      ghost var before := St();
      var k := 0;
      while k < |w.bytes|
        invariant k <= |w.bytes| && Valid() && Noted(before, i, w, k, originals)
      {
        ghost var n, was := k, originals;
        Join(w.addr + k, i);
        k := k + 1;
        forall a: nat | a < MEM
          ensures NotedAt(before, i, w, k, a, originals)
        {
          assert NotedAt(before, i, w, n, a, was);
        }
      }
    }

    /** `journaled`: each byte joins the journal before the store and is noted after it. */
    method Journaled(i: nat, track: bool, w: Write)
      requires Valid()
      modifies this`mem, this`originals
      ensures Valid() && St() == Stored(old(St()), i, track, w)
    {
      ghost var before := St();
      if track {
        JoinAll(i, w);
      }
      ghost var noted := originals;
      mem := mem[..w.addr] + w.bytes + mem[w.addr + |w.bytes|..];
      if track {
        forall a: nat | Covers(w, a)
          ensures a in originals
        {
          assert NotedAt(before, i, w, |w.bytes|, a, originals);
        }
        Note(w);
        NotedIsStored(before, i, w, noted, St());
      }
    }

    /** What a store left in its bytes. */
    method Note(w: Write)
      requires Valid() && forall a: nat | Covers(w, a) :: a in originals
      modifies this`originals
      ensures originals.Keys == old(originals).Keys
      ensures forall a | a in originals ::
        originals[a] == if Covers(w, a) then old(originals)[a].(wrote := mem[a]) else old(originals)[a]
    {
      var k := 0;
      while k < |w.bytes|
        invariant k <= |w.bytes| && originals.Keys == old(originals).Keys
        invariant forall a | a in originals ::
          originals[a] == if w.addr <= a < w.addr + k then old(originals)[a].(wrote := mem[a]) else old(originals)[a]
      {
        var a := w.addr + k;
        assert Covers(w, a);
        originals := originals[a := originals[a].(wrote := mem[a])];
        k := k + 1;
      }
    }

    /** `run_tracked`, its stores as the code makes them. */
    method RunTracked(i: nat)
      requires Valid() && i < |codes|
      modifies this`mem, this`originals
      ensures Valid() && St() == RunCode(old(St()), codes, i)
    {
      var stores := codes[i].stores(mem);
      ghost var goal := Played(St(), i, codes[i].analog, stores, 0);
      var k := 0;
      while k < |stores|
        invariant k <= |stores| && Valid() && Played(St(), i, codes[i].analog, stores, k) == goal
      {
        Journaled(i, codes[i].analog, stores[k]);
        k := k + 1;
      }
    }

    /** Code i reverted at every byte but those in todo. */
    ghost predicate Reverted(before: State, i: nat, todo: set<nat>)
      requires before.Ok() && Valid()
      reads this
    {
      forall a: nat | a < MEM :: At(St(), a) == if a in todo then At(before, a) else RevertCell(At(before, a), i)
    }

    /** Code i gives up byte a. */
    method RevertByte(a: nat, i: nat)
      requires Valid() && a in originals
      modifies this`mem, this`originals
      ensures Valid() && At(St(), a) == RevertCell(At(old(St()), a), i)
      ensures forall x: nat | x < MEM && x != a :: At(St(), x) == At(old(St()), x)
    {
      var ws := originals[a].writers;
      if i in ws {
        var left := Without(ws, i);
        if left == [] {
          Restore(a, originals[a]);
          originals := originals - {a};
        } else {
          originals := originals[a := originals[a].(writers := left)];
        }
      }
    }

    /** `revert`: code i gives up every byte it wrote; a byte with no writer left gets its original
        back, unless something else has changed it since. */
    method Revert(i: nat)
      requires Valid()
      modifies this`mem, this`originals
      ensures Valid() && Reverted(old(St()), i, {})
    {
      ghost var before := St();
      var todo := originals.Keys;
      assert forall a: nat | a < MEM && a !in todo :: At(before, a) == RevertCell(At(before, a), i);
      while todo != {}
        invariant Valid() && Reverted(before, i, todo) && forall a | a in todo :: a in before.orig && a < MEM
        decreases |todo|
      {
        var a :| a in todo;
        assert At(St(), a) == At(before, a);
        RevertByte(a, i);
        todo := todo - {a};
      }
    }

    // ---- settle_carried -------------------------------------------------------------

    /** An enabled carried writer takes its bytes again. */
    method TakeBack(c: Carried, m: nat)
      requires Valid() && forall a | a in c.addrs :: a < MEM
      modifies this`originals
      ensures Valid()
      ensures forall a: nat | a < MEM ::
        At(St(), a) == SettledCell(At(old(St()), a), Hits(c.addrs, a, m, |c.addrs|), false)
    {
      var k := 0;
      while k < |c.addrs|
        invariant k <= |c.addrs| && Valid()
        invariant forall a: nat | a < MEM :: At(St(), a) == SettledCell(At(old(St()), a), Hits(c.addrs, a, m, k), false)
      {
        var x := c.addrs[k];
        assert x in c.addrs && At(St(), x) == SettledCell(At(old(St()), x), Hits(c.addrs, x, m, k), false);
        var o := if x in originals then originals[x] else Original(0, 0, []);
        OneMoreWriter(At(old(St()), x), Hits(c.addrs, x, m, k), m);
        originals := originals[x := o.(writers := o.writers + [m])];
        k := k + 1;
      }
    }

    /** A gone writer's bytes go back, unless an enabled writer shares them. */
    method GiveBack(c: Carried)
      requires Valid() && forall a | a in c.addrs :: a < MEM
      modifies this`mem, this`originals
      ensures Valid() && forall a: nat | a < MEM :: At(St(), a) == SettledCell(At(old(St()), a), [], a in c.addrs)
    {
      var k := 0;
      while k < |c.addrs|
        invariant k <= |c.addrs| && Valid()
        invariant forall a: nat | a < MEM :: At(St(), a) == SettledCell(At(old(St()), a), [], a in c.addrs[..k])
      {
        var x := c.addrs[k];
        assert c.addrs[..k + 1] == c.addrs[..k] + [x] && x in c.addrs;
        assert At(St(), x) == SettledCell(At(old(St()), x), [], x in c.addrs[..k]);
        if x in originals && originals[x].writers == [] {
          Restore(x, originals[x]);
          originals := originals - {x};
        }
        k := k + 1;
      }
      assert c.addrs[..k] == c.addrs;
    }

    /** A carried code still enabled takes its bytes back. */
    method TakeOne(c: Carried) returns (taken: bool)
      requires Valid() && Addressed(carried) && c in carried
      modifies this`originals
      ensures Valid() && taken == (Match(codes, c.id, 0) < |codes|)
      ensures forall a: nat | a < MEM :: At(St(), a) == SettledCell(At(old(St()), a), MatchedBy(c, codes, a), false)
    {
      var i := FindEnabled(c.id);
      taken := i < |codes|;
      if taken {
        TakeBack(c, i);
      }
    }

    /** Every carried code still enabled takes its bytes back; the others are listed. */
    method TakeAllBack() returns (gone: seq<Carried>)
      requires Valid() && Addressed(carried)
      modifies this`originals
      ensures Valid() && Taken(old(St()), carried, codes, |carried|, St())
      ensures GoneListed(gone, carried, codes, |carried|)
    {
      gone := [];
      ghost var before := St();
      var k := 0;
      while k < |carried|
        invariant k <= |carried| && Valid()
        invariant Taken(before, carried, codes, k, St()) && GoneListed(gone, carried, codes, k)
      {
        ghost var mid := St();
        var taken := TakeOne(carried[k]);
        TakenOne(before, carried, codes, k, mid, St());
        GoneOne(gone, carried, codes, k);
        if !taken {
          gone := gone + [carried[k]];
        }
        k := k + 1;
      }
    }

    /** The first enabled code with hash id. */
    method FindEnabled(id: nat) returns (i: nat)
      ensures i == Match(codes, id, 0)
    {
      i := 0;
      while i < |codes| && !(codes[i].enabled && codes[i].id == id)
        invariant i <= |codes| && Match(codes, id, i) == Match(codes, id, 0)
      {
        i := i + 1;
      }
    }

    /** Every gone writer gives its bytes back. */
    method GiveAllBack(gone: seq<Carried>)
      requires Valid() && Addressed(gone)
      modifies this`mem, this`originals
      ensures Valid() && forall a: nat | a < MEM :: At(St(), a) == SettledCell(At(old(St()), a), [], Wrote(gone, a))
    {
      var k := 0;
      while k < |gone|
        invariant k <= |gone| && Valid()
        invariant forall a: nat | a < MEM :: At(St(), a) == SettledCell(At(old(St()), a), [], Wrote(gone[..k], a))
      {
        assert gone[..k + 1] == gone[..k] + [gone[k]] && gone[k] in gone;
        WroteMore(gone[..k], gone[k]);
        GiveBack(gone[k]);
        k := k + 1;
      }
      assert gone[..k] == gone;
    }

    /** `settle_carried`. */
    method SettleCarried()
      requires Valid() && Addressed(carried)
      modifies this`mem, this`originals, this`carried
      ensures Valid() && carried == [] && SettledState(old(St()), old(carried), codes, St())
    {
      var gone := TakeAllBack();
      GiveAllBack(gone);
      carried := [];
    }

    // ---- run ----------------------------------------------------------------------

    /** Code i ran in the last frame, as far as the engine remembers. */
    predicate Was(i: nat)
      reads this
    {
      |wasEnabled| == |codes| && i < |codes| && wasEnabled[i]
    }

    ghost predicate Tracked()
      reads this
    {
      TrackedBy(St(), codes, wasEnabled)
    }

    /** The undo loop of `run`. */
    method Undo()
      requires Valid() && |wasEnabled| == |codes|
      modifies this`mem, this`originals, this`wasEnabled
      ensures Valid() && UndoneBy(old(St()), codes, old(wasEnabled), |codes|, St())
      ensures |wasEnabled| == |codes| && forall j | 0 <= j < |codes| :: wasEnabled[j] == codes[j].enabled
    {
      ghost var before, was := St(), wasEnabled;
      var i := 0;
      while i < |codes|
        invariant i <= |codes| == |wasEnabled| && Valid() && Partly(before, was, i)
        invariant forall j | 0 <= j < |codes| :: wasEnabled[j] == if j < i then codes[j].enabled else was[j]
      {
        if wasEnabled[i] && !codes[i].enabled {
          ghost var mid := St();
          Revert(i);
          assert forall a: nat | a < MEM :: At(mid, a) == RevertedBy(At(before, a), codes, was, i);
        }
        wasEnabled := wasEnabled[i := codes[i].enabled];
        i := i + 1;
      }
    }

    ghost predicate Partly(before: State, was: seq<bool>, n: nat)
      requires n <= |codes| == |was|
      reads this
    {
      UndoneBy(before, codes, was, n, St())
    }

    /** One code of it, if it is enabled. */
    method RunOne(i: nat, ghost before: State)
      requires Valid() && i < |codes| && |before.mem| == MEM && St() == RunCodes(before, codes, EnabledAmong(codes, i))
      modifies this`mem, this`originals
      ensures Valid() && St() == RunCodes(before, codes, EnabledAmong(codes, i + 1))
    {
      OneMoreCode(before, codes, i);
      if codes[i].enabled {
        RunTracked(i);
      }
    }

    /** The run loop of `run`. */
    method RunEnabled()
      requires Valid()
      modifies this`mem, this`originals
      ensures Valid() && St() == RunCodes(old(St()), codes, EnabledAmong(codes, |codes|))
    {
      ghost var before := St();
      var i := 0;
      while i < |codes|
        invariant i <= |codes| && Valid() && St() == RunCodes(before, codes, EnabledAmong(codes, i))
      {
        RunOne(i, before);
        i := i + 1;
      }
    }

    /** `run` up to its codes: the journal of a loaded state is settled, disabled codes are undone. */
    method Prepare()
      requires Valid() && (carried != [] ==> Addressed(carried) && wasEnabled == [])
      modifies this`mem, this`originals, this`wasEnabled, this`carried
      ensures Valid() && carried == [] && Cleaned(old(St()), old(carried), codes, old(wasEnabled), St())
      ensures codes != [] ==>
        |wasEnabled| == |codes| && forall j | 0 <= j < |codes| :: wasEnabled[j] == codes[j].enabled
    {
      ghost var remembered := |wasEnabled| == |codes| && carried == [];
      if carried != [] {
        SettleCarried();
      }
      if codes != [] {
        if |wasEnabled| != |codes| {
          wasEnabled := seq(|codes|, _ => false);
        }
        ghost var before, was := St(), wasEnabled;
        Undo();
        if !remembered {
          NoneRemembered(before, codes, was, St());
        }
      }
    }

    /** `run`: the enabled codes run from the state prepared for them, `clean`. */
    method Run() returns (ghost clean: State)
      requires Valid() && (carried != [] ==> Addressed(carried) && wasEnabled == [])
      modifies this`mem, this`originals, this`wasEnabled, this`carried
      ensures Valid() && carried == [] && |clean.mem| == MEM
      ensures Cleaned(old(St()), old(carried), codes, old(wasEnabled), clean)
      ensures old(carried) == [] && old(Tracked()) ==> UndoneState(old(St()), On(codes), clean)
      ensures St() == RunCodes(clean, codes, EnabledAmong(codes, |codes|))
      ensures codes != [] ==>
        |wasEnabled| == |codes| && forall j | 0 <= j < |codes| :: wasEnabled[j] == codes[j].enabled
    {
      ghost var before, was, tracked := St(), wasEnabled, carried == [] && Tracked();
      Prepare();
      clean := St();
      if tracked {
        KeepEnabled(before, codes, was, clean);
      }
      if codes != [] {
        RunEnabled();
      }
    }

    // ---- save states ------------------------------------------------------------------

    /** One journaled byte filed under each of its writers. */
    method FileByte(byCode: map<nat, seq<nat>>, a: nat) returns (r: map<nat, seq<nat>>)
      requires a in originals
      ensures forall i: nat, x: nat :: Filed(r, i, x) <==> Filed(byCode, i, x) || (x == a && i in originals[a].writers)
      ensures Distinct(originals[a].writers) && NoneTwice(byCode) && (forall i: nat :: !Filed(byCode, i, a)) ==>
        NoneTwice(r)
      ensures originals[a].writers == [] ==> r == byCode
    {
      r := byCode;
      var ws, k := originals[a].writers, 0;
      ghost var once := Distinct(ws) && NoneTwice(byCode) && forall i: nat :: !Filed(byCode, i, a);
      while k < |ws|
        invariant k <= |ws|
        invariant FiledTo(byCode, r, a, ws, k)
        invariant once ==> NoneTwice(r)
        invariant ws == [] ==> r == byCode
      {
        var mine := if ws[k] in r then r[ws[k]] else [];
        if once {
          assert ws[k] !in ws[..k];
          assert !Filed(byCode, ws[k], a);
          FiledOnce(r, ws[k], a, mine);
        }
        FiledToNext(byCode, r, a, ws, k, mine);
        r := r[ws[k] := mine + [a]];
        k := k + 1;
      }
      assert ws[..k] == ws;
    }

    /** The journaled bytes in address order, and filed under their writers. */
    method FileAll() returns (addrs: seq<nat>, values: seq<nat>, wrote: seq<nat>, byCode: map<nat, seq<nat>>)
      ensures Chunk(addrs, values, wrote, []).Holds(originals)
      ensures forall i: nat, a: nat :: Filed(byCode, i, a) <==> i in Writers(St(), a)
      ensures (forall a | a in originals :: Distinct(originals[a].writers)) ==> NoneTwice(byCode)
      ensures (forall a | a in originals :: originals[a].writers == []) ==> byCode == map[]
    {
      addrs := SortedKeys(originals.Keys);
      values, wrote, byCode := [], [], map[];
      var k := 0;
      while k < |addrs|
        invariant k <= |addrs| && |values| == |wrote| == k
        invariant forall x | 0 <= x < k ::
          values[x] == originals[addrs[x]].value && wrote[x] == originals[addrs[x]].wrote
        invariant forall i: nat, a: nat :: Filed(byCode, i, a) <==> a in addrs[..k] && i in originals[a].writers
        invariant (forall a | a in originals :: Distinct(originals[a].writers)) ==> NoneTwice(byCode)
        invariant (forall a | a in originals :: originals[a].writers == []) ==> byCode == map[]
      {
        assert addrs[..k + 1] == addrs[..k] + [addrs[k]] && addrs[k] in addrs && addrs[k] !in addrs[..k];
        var o := originals[addrs[k]];
        values, wrote := values + [o.value], wrote + [o.wrote];
        byCode := FileByte(byCode, addrs[k]);
        k := k + 1;
      }
      assert addrs[..k] == addrs;
    }

    /** `save_journal`: the bytes in address order with their originals and what was written, and
        the carried writers followed by the journal's own, each by the hash of its words. An empty
        journal writes no chunk. */
    method SaveJournal() returns (any: bool, chunk: Chunk, ghost who: seq<nat>)
      requires Valid() && forall a | a in originals :: Listed(originals[a].writers, codes)
      ensures any == (originals != map[] || carried != []) && chunk.Holds(originals)
      ensures forall a: nat :: Names(chunk.writers, a) == Names(carried, a) + Ids(Writers(St(), a), codes)
      ensures (forall a | a in originals :: originals[a].writers == []) ==> chunk.writers == carried
      ensures carried == [] && (forall a | a in originals :: Distinct(originals[a].writers))
        ==> ListsWriters(chunk.writers, who, St(), codes)
    {
      any := originals != map[] || carried != [];
      var addrs, values, wrote, byCode := FileAll();
      var writers;
      writers, who := ListWriters(byCode);
      chunk := Chunk(addrs, values, wrote, carried + writers);
      forall a: nat
        ensures Names(chunk.writers, a) == Names(carried, a) + Ids(Writers(St(), a), codes)
      {
        NamesConcat(carried, writers, a);
        FiledIdsAre(byCode, codes, St(), a);
      }
      if carried == [] && NoneTwice(byCode) {
        WhoseWriters(byCode, writers, who, St(), codes);
        assert chunk.writers == writers;
      }
    }

    /** The filed bytes by code hash, in the order of the code list. */
    method ListWriters(byCode: map<nat, seq<nat>>) returns (writers: seq<Carried>, ghost who: seq<nat>)
      ensures forall a: nat :: Names(writers, a) == FiledIds(byCode, codes, |codes|, a)
      ensures FromFiles(byCode, writers, who, codes, |codes|)
      ensures byCode == map[] ==> writers == []
    {
      writers, who := [], [];
      var i := 0;
      while i < |codes|
        invariant i <= |codes|
        invariant forall a: nat :: Names(writers, a) == FiledIds(byCode, codes, i, a)
        invariant FromFiles(byCode, writers, who, codes, i)
        invariant byCode == map[] ==> writers == []
      {
        if i in byCode {
          var c := Carried(codes[i].id, byCode[i]);
          OneMoreFiled(byCode, codes, i, writers, c);
          writers := writers + [c];
          who := who + [i];
        } else {
          NoMoreFiled(byCode, codes, i);
        }
        i := i + 1;
      }
    }

    /** `load_journal`, after `forget_writes`; ok is false for a chunk whose lists differ. */
    method LoadJournal(chunk: Chunk) returns (ok: bool)
      requires Valid() && originals == map[] && carried == [] && forall a | a in chunk.addrs :: a < MEM
      modifies this`originals, this`carried
      ensures Valid() && ok == (|chunk.addrs| == |chunk.values| == |chunk.wrote|)
      ensures !ok ==> originals == map[] && carried == []
      ensures ok ==> carried == chunk.writers && (forall a :: a in originals <==> a in chunk.addrs)
      ensures ok && Basics.Increasing(chunk.addrs) ==>
        forall k | 0 <= k < |chunk.addrs| :: originals[chunk.addrs[k]] == Original(chunk.values[k], chunk.wrote[k], [])
    {
      ok := |chunk.addrs| == |chunk.values| == |chunk.wrote|;
      if !ok {
        return;
      }
      var k := 0;
      while k < |chunk.addrs|
        invariant k <= |chunk.addrs| && Valid() && forall a :: a in originals <==> a in chunk.addrs[..k]
        invariant forall a | a in originals :: originals[a].writers == []
        invariant Basics.Increasing(chunk.addrs) ==>
          forall x | 0 <= x < k :: chunk.addrs[x] in originals &&
            originals[chunk.addrs[x]] == Original(chunk.values[x], chunk.wrote[x], [])
      {
        var a := chunk.addrs[k];
        assert chunk.addrs[..k + 1] == chunk.addrs[..k] + [a] && a in chunk.addrs;
        var o := if a in originals then originals[a] else Original(0, 0, []);
        originals := originals[a := o.(value := chunk.values[k], wrote := chunk.wrote[k])];
        k := k + 1;
      }
      assert chunk.addrs[..k] == chunk.addrs;
      carried := chunk.writers;
    }

    // ---- frame after frame -----------------------------------------------------------

    /** The codes enabled in the last frame. */
    ghost function Live(): set<nat>
      reads this
    {
      set i: nat | i < |codes| && Was(i)
    }

    /** A frame's choice of codes. */
    method SetEnabled(on: set<nat>)
      modifies this`codes
      ensures codes == Chosen(old(codes), on)
    {
      var i := 0;
      while i < |codes|
        invariant i <= |codes| == |old(codes)|
        invariant forall j | 0 <= j < |codes| ::
          codes[j] == if j < i then old(codes)[j].(enabled := j in on) else old(codes)[j]
      {
        codes := codes[i := codes[i].(enabled := i in on)];
        i := i + 1;
      }
    }
  }

  /** The journal saved and loaded beside another code list, after `forget_writes`. */
  method SaveAndLoad(live: Engine, codes2: seq<Code>) returns (loaded: Engine)
    requires live.Valid() && live.carried == [] && AllWritten(live.St(), live.codes)
    ensures fresh(loaded) && loaded.codes == codes2 && loaded.wasEnabled == []
    ensures LoadedFrom(live.St(), loaded.St()) && Carries(loaded.carried, live.St(), live.codes)
    ensures Addressed(loaded.carried) && (loaded.carried == [] ==> loaded.originals == map[])
  {
    var any, chunk, _ := live.SaveJournal();
    loaded := new Engine(codes2, live.mem);
    if any {
      ChunkInMemory(live.St(), chunk);
      var ok := loaded.LoadJournal(chunk);
      ChunkLoaded(live.St(), chunk, loaded.St());
      WritersNamed(live.St(), live.codes, chunk.writers);
    }
  }

  /** A run on the live journal, and a run on the journal saved from it and loaded beside another
      code list with the same codes enabled in the same order: same memory, same originals, and
      for every byte the same writers by hash. */
  method RunBothWays(live: Engine, codes2: seq<Code>) returns (loaded: Engine)
    requires live.Valid() && live.carried == [] && live.Tracked() && DistinctIds(live.codes)
    requires SameCodes(live.codes, EnabledAmong(live.codes, |live.codes|), codes2, EnabledAmong(codes2, |codes2|))
    modifies live
    ensures live.codes == old(live.codes) && loaded.codes == codes2
    ensures Alike(live.St(), live.codes, loaded.St(), codes2)
  {
    ghost var st, codes := live.St(), live.codes;
    loaded := SaveAndLoad(live, codes2);
    ghost var start, carried := loaded.St(), loaded.carried;
    ghost var undone := live.Run();
    ghost var settled := loaded.Run();
    NothingCarried(start, codes2, carried, settled);
    SaveLoadRun(st, codes, undone, start, carried, codes2, settled);
  }
}
