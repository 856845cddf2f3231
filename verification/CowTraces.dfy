/** The whole calls of CowCalls are runs of the steps that CowRuns relates to plain memory. */
module CowTraces {
  import opened Options
  import opened Blocks
  import opened Cow
  import opened CowSteps
  import opened CowRuns
  import opened CowCalls

  // ---------- sequences of events

  /** es leads from s to s'. */
  ghost predicate Path(s: Vm, es: seq<Event>, s': Vm)
    decreases |es|
  {
    if es == [] then s == s' else exists t: Vm :: Next(s, es[0], t) && Path(t, es[1..], s')
  }

  lemma {:induction false} PathJoin(s: Vm, es: seq<Event>, t: Vm, fs: seq<Event>, s': Vm)
    requires Path(s, es, t) && Path(t, fs, s')
    ensures Path(s, es + fs, s')
    decreases |es|
  {
    hide Next;
    if es == [] {
      assert es + fs == fs;
    } else {
      var u: Vm :| Next(s, es[0], u) && Path(u, es[1..], t);
      PathJoin(u, es[1..], t, fs, s');
      assert (es + fs)[0] == es[0] && (es + fs)[1..] == es[1..] + fs;
    }
  }

  lemma OneEvent(s: Vm, e: Event, s': Vm)
    requires Next(s, e, s')
    ensures Path(s, [e], s')
  {
    hide Next;
    assert [e][0] == e && [e][1..] == [];
    assert Path(s', [], s');
    assert Next(s, [e][0], s') && Path(s', [e][1..], s');
  }

  /** A run, continued. */
  lemma {:induction false} Continue(lo: nat, hi: nat, ts: seq<Vm>, es: seq<Event>, fs: seq<Event>, s: Vm)
    returns (us: seq<Vm>)
    requires Run(lo, hi, ts, es) && Path(ts[|es|], fs, s)
    ensures Run(lo, hi, us, es + fs) && us[|es| + |fs|] == s
    decreases |fs|
  {
    hide Next, Boot;
    if fs == [] {
      us := ts;
      assert es + fs == es;
    } else {
      var t: Vm :| Next(ts[|es|], fs[0], t) && Path(t, fs[1..], s);
      RunMore(lo, hi, ts, es, fs[0], t);
      us := Continue(lo, hi, ts + [t], es + [fs[0]], fs[1..], s);
      assert es + [fs[0]] + fs[1..] == es + fs;
    }
  }

  lemma RunMore(lo: nat, hi: nat, ts: seq<Vm>, es: seq<Event>, e: Event, t: Vm)
    requires Run(lo, hi, ts, es) && Next(ts[|es|], e, t)
    ensures Run(lo, hi, ts + [t], es + [e])
  {
    hide Next, Boot;
    var ts', es' := ts + [t], es + [e];
    forall n: nat | n < |es'| ensures Next(ts'[n], es'[n], ts'[n + 1]) {
      if n < |es| {
        assert Next(ts[n], es[n], ts[n + 1]);
      }
    }
  }

  // ---------- table pages

  lemma {:induction false} TablesEvents(s: Vm, need: nat) returns (es: seq<Event>)
    ensures Path(s, es, Tables(s, need).0)
    decreases need
  {
    hide KernAlloc;
    if need == 0 || KernAlloc(s).None? {
      es := [];
    } else {
      var t := KernAlloc(s).value.0;
      OneEvent(s, DoKernAlloc, t);
      var fs := TablesEvents(t, need - 1);
      PathJoin(s, [DoKernAlloc], t, fs, Tables(s, need).0);
      es := [DoKernAlloc] + fs;
    }
  }

  // ---------- uvmcopy

  /** Counting a mapped page again and taking a page from the free list are independent. */
  lemma AllocApart(s: Vm, k: Key)
    requires Inv(s) && k in s.pt
    ensures Live(s, k) && (KernAlloc(ShareFailed(s, k)).None? <==> KernAlloc(s).None?)
    ensures KernAlloc(s).Some? ==>
      && k in KernAlloc(s).value.0.pt && s.pt[k].ppn in KernAlloc(s).value.0.refs
      && KernAlloc(ShareFailed(s, k)).value.0 == ShareFailed(KernAlloc(s).value.0, k)
  {
    hide Inv, Fill;
    MappedLive(s, k);
    if s.free != [] {
      NotFree(s, k);
      var x, y := s.pt[k].ppn, s.free[0];
      Counted(s.refs, x, y);
    }
  }

  lemma NotFree(s: Vm, k: Key)
    requires Inv(s) && k in s.pt && s.free != []
    ensures s.free[0] != s.pt[k].ppn
  {
    MappedLive(s, k);
    hide CountsOk, KernOk, PtesOk, WritersOk, Names;
    assert multiset(s.free)[s.free[0]] > 0;
  }

  /** Adding one at x and at y, in either order. */
  lemma Counted(refs: map<nat, nat>, x: nat, y: nat)
    requires x in refs && x != y
    ensures var n := if y in refs then refs[y] else 0;
      refs[x := refs[x] + 1][y := n + 1] == refs[y := n + 1][x := refs[x] + 1]
  {
  }

  lemma {:induction false} TablesApart(s: Vm, k: Key, need: nat)
    requires Inv(s) && k in s.pt
    ensures Live(s, k) && Tables(ShareFailed(s, k), need).1 == Tables(s, need).1
    ensures var t := Tables(s, need).0;
      k in t.pt && t.pt[k] == s.pt[k] && s.pt[k].ppn in t.refs && Tables(ShareFailed(s, k), need).0 == ShareFailed(t, k)
    decreases need
  {
    hide Inv, KernAlloc, ShareFailed;
    MappedLive(s, k);
    if need > 0 {
      AllocApart(s, k);
      if KernAlloc(s).Some? {
        KernAllocOk(s);
        TablesApart(KernAlloc(s).value.0, k, need - 1);
      }
    }
  }

  /** A pass of uvmcopy is the table pages and then a share, or, when they cannot be had, a failed share. */
  lemma CopyPassIsShare(s: Vm, k: Key, j: Key, need: nat)
    requires Inv(s) && k in s.pt
    ensures Live(s, k)
    ensures var (t, ok) := Tables(s, need);
      && k in t.pt && t.pt[k].ppn in t.refs
      && CopyPass(s, k, j, need) == (if ok then SharePage(t, k, j) else ShareFailed(t, k), ok)
  {
    hide Inv, Tables;
    TablesApart(s, k, need);
    var (t, ok) := Tables(s, need);
    var x := s.pt[k].ppn;
    assert t.leaked + multiset{x} - multiset{x} == t.leaked;
  }

  lemma CopyPassEvents(s: Vm, k: Key, j: Key, need: nat) returns (es: seq<Event>)
    requires Inv(s) && k in s.pt && j !in s.pt && j.0 != k.0 && j.1 == k.1
    ensures Live(s, k) && Path(s, es, CopyPass(s, k, j, need).0)
  {
    hide Inv, Tables, SharePage, ShareFailed, CopyPass, View, Backed, Path;
    CopyPassIsShare(s, k, j, need);
    TablesOk(s, need);
    var (t, ok) := Tables(s, need);
    es := TablesEvents(s, need);
    assert j == (j.0, k.1);
    var e, t' := if ok then DoShare(k, j.0) else DoShareFailed(k), CopyPass(s, k, j, need).0;
    OneEvent(t, e, t');
    PathJoin(s, es, t, [e], t');
    es := es + [e];
  }

  lemma {:induction false} UnmapEvents(s: Vm, p: nat, v: nat, n: nat) returns (es: seq<Event>)
    ensures Path(s, es, Unmap(s, p, v, n))
    decreases n
  {
    hide Release, Path;
    if n == 0 || !Live(s, (p, v)) {
      es := [];
      assert Path(s, es, s) by { PathNone(s); }
    } else {
      var t := Release(s, (p, v));
      OneEvent(s, DoRelease((p, v)), t);
      var fs := UnmapEvents(t, p, v + 1, n - 1);
      PathJoin(s, [DoRelease((p, v))], t, fs, Unmap(s, p, v, n));
      es := [DoRelease((p, v))] + fs;
    }
  }

  lemma PathNone(s: Vm)
    ensures Path(s, [], s)
  {
  }

  /** uvmcopy is a sequence of steps. */
  lemma {:induction false} CopyFromEvents(s: Vm, p: nat, q: nat, i: nat, n: nat, needs: seq<nat>)
    returns (es: seq<Event>)
    requires Inv(s) && p != q && |needs| == n && i <= n && Vacant(s, q, i, n - i)
    ensures Path(s, es, CopyFrom(s, p, q, i, n, needs).0)
    decreases n - i
  {
    hide Inv, View, Backed, CopyPass, Unmap, Path;
    if i == n || !Live(s, (p, i)) {
      es := [];
      PathNone(s);
    } else {
      var k, j := (p, i), (q, i);
      es := CopyPassEvents(s, k, j, needs[i]);
      CopyPassOk(s, k, j, needs[i]);
      var (t, ok) := CopyPass(s, k, j, needs[i]);
      var fs;
      if ok {
        fs := CopyFromEvents(t, p, q, i + 1, n, needs);
      } else {
        fs := UnmapEvents(t, q, 0, i);
      }
      PathJoin(s, es, t, fs, CopyFrom(s, p, q, i, n, needs).0);
      es := es + fs;
    }
  }

  /** In every run, a call of uvmcopy continues the run. */
  lemma UvmcopyInRuns(lo: nat, hi: nat, ts: seq<Vm>, es: seq<Event>, p: nat, q: nat, n: nat, needs: seq<nat>)
    returns (us: seq<Vm>, fs: seq<Event>)
    requires Run(lo, hi, ts, es) && p != q && |needs| == n && Vacant(ts[|es|], q, 0, n)
    ensures Run(lo, hi, us, es + fs) && us[|es| + |fs|] == CopyFrom(ts[|es|], p, q, 0, n, needs).0
  {
    hide Run, Inv, View, Path, CopyFrom;
    assert |ts| == |es| + 1 by { RunLength(lo, hi, ts, es); }
    CowIsEager(lo, hi, ts, es, |es|);
    fs := CopyFromEvents(ts[|es|], p, q, 0, n, needs);
    us := Continue(lo, hi, ts, es, fs, CopyFrom(ts[|es|], p, q, 0, n, needs).0);
  }

  lemma RunLength(lo: nat, hi: nat, ts: seq<Vm>, es: seq<Event>)
    requires Run(lo, hi, ts, es)
    ensures |ts| == |es| + 1
  {
  }

  // ---------- uvmalloc

  /** Entering a page and taking pages from the free list are independent. */
  lemma {:induction false} TablesName(s: Vm, k: Key, e: Pte, need: nat)
    ensures Tables(Name(s, k, e), need) == (Name(Tables(s, need).0, k, e), Tables(s, need).1)
    decreases need
  {
    hide Fill;
    if need > 0 && s.free != [] {
      var t := KernAlloc(s).value.0;
      assert KernAlloc(Name(s, k, e)).value.0 == Name(t, k, e);
      TablesName(t, k, e, need - 1);
    }
  }

  /** A pass of uvmalloc is a new page and then the table pages; when they cannot be had, the page is released. */
  lemma GrowPassIsMap(s: Vm, k: Key, e: Pte, need: nat)
    requires Inv(s) && k !in s.pt && !(e.w && e.c) && MapNew(s, k, e, Fill(0)).Some?
    ensures var (t, ok) := Tables(MapNew(s, k, e, Fill(0)).value, need);
      && Inv(t) && Live(t, k) && GrowPass(s, k, e, need) == (if ok then t else Release(t, k), ok)
  {
    hide Inv, View, Backed, Tables, Fill;
    var (s1, y) := Fresh(s).value;
    var a, e' := SetMem(s1, y, Fill(0)), e.(ppn := y);
    assert a.leaked - multiset{y} == s.leaked;
    var m := MapNew(s, k, e, Fill(0)).value;
    assert m == Name(a, k, e');
    MapNewOk(s, k, e, Fill(0));
    TablesOk(m, need);
    TablesName(a, k, e', need);
    TablesPt(a, need);
    var (t, ok) := Tables(m, need);
    MappedLive(t, k);
    var b := Tables(a, need).0;
    assert t == Name(b, k, e') && b.pt == s.pt && b.pt[k := e'] - {k} == b.pt;
  }

  lemma {:induction false} TablesPt(s: Vm, need: nat)
    ensures Tables(s, need).0.pt == s.pt
    decreases need
  {
    hide Fill;
    if need > 0 && s.free != [] {
      TablesPt(KernAlloc(s).value.0, need - 1);
    }
  }

  lemma NoPage(s: Vm, k: Key, e: Pte, need: nat)
    ensures MapNew(s, k, e, Fill(0)).None? ==> GrowPass(s, k, e, need) == (s, false)
  {
  }

  lemma GrowPassEvents(s: Vm, k: Key, e: Pte, need: nat) returns (es: seq<Event>)
    requires Inv(s) && k !in s.pt && !(e.w && e.c)
    ensures Path(s, es, GrowPass(s, k, e, need).0)
  {
    hide Inv, Tables, GrowPass, Release, Path, Fill, MapNew;
    NoPage(s, k, e, need);
    if MapNew(s, k, e, Fill(0)).None? {
      es := [];
      PathNone(s);
    } else {
      GrowPassIsMap(s, k, e, need);
      var m := MapNew(s, k, e, Fill(0)).value;
      var (t, ok) := Tables(m, need);
      es := MapEvents(s, k, e, need);
      if !ok {
        OneEvent(t, DoRelease(k), Release(t, k));
        PathJoin(s, es, t, [DoRelease(k)], Release(t, k));
        es := es + [DoRelease(k)];
      }
    }
  }

  lemma MapEvents(s: Vm, k: Key, e: Pte, need: nat) returns (es: seq<Event>)
    requires k !in s.pt && !(e.w && e.c) && MapNew(s, k, e, Fill(0)).Some?
    ensures Path(s, es, Tables(MapNew(s, k, e, Fill(0)).value, need).0)
  {
    hide Tables, Path, Fill, MapNew;
    var m := MapNew(s, k, e, Fill(0)).value;
    OneEvent(s, DoMap(k, e, Fill(0)), m);
    es := TablesEvents(m, need);
    PathJoin(s, [DoMap(k, e, Fill(0))], m, es, Tables(m, need).0);
    es := [DoMap(k, e, Fill(0))] + es;
  }

  /** uvmalloc is a sequence of steps. */
  lemma {:induction false} GrowFromEvents(s: Vm, p: nat, v0: nat, i: nat, n: nat, e: Pte, needs: seq<nat>)
    returns (es: seq<Event>)
    requires Inv(s) && v0 <= i <= n == |needs| && !(e.w && e.c) && Vacant(s, p, i, n - i)
    ensures Path(s, es, GrowFrom(s, p, v0, i, n, e, needs).0)
    decreases n - i
  {
    hide Inv, View, Backed, GrowPass, Unmap, Path;
    if i == n {
      es := [];
      PathNone(s);
    } else {
      var k := (p, i);
      es := GrowPassEvents(s, k, e, needs[i]);
      GrowPassOk(s, k, e, needs[i]);
      var (t, ok) := GrowPass(s, k, e, needs[i]);
      var fs;
      if ok {
        fs := GrowFromEvents(t, p, v0, i + 1, n, e, needs);
      } else {
        fs := UnmapEvents(t, p, v0, i - v0);
      }
      PathJoin(s, es, t, fs, GrowFrom(s, p, v0, i, n, e, needs).0);
      es := es + fs;
    }
  }

  /** In every run, a call of uvmalloc continues the run. */
  lemma UvmallocInRuns(lo: nat, hi: nat, ts: seq<Vm>, es: seq<Event>, p: nat, v0: nat, n: nat, e: Pte, needs: seq<nat>)
    returns (us: seq<Vm>, fs: seq<Event>)
    requires Run(lo, hi, ts, es) && v0 <= n == |needs| && !(e.w && e.c) && Vacant(ts[|es|], p, v0, n - v0)
    ensures Run(lo, hi, us, es + fs) && us[|es| + |fs|] == GrowFrom(ts[|es|], p, v0, v0, n, e, needs).0
  {
    hide Run, Inv, View, Path, GrowFrom;
    assert |ts| == |es| + 1 by { RunLength(lo, hi, ts, es); }
    CowIsEager(lo, hi, ts, es, |es|);
    fs := GrowFromEvents(ts[|es|], p, v0, v0, n, e, needs);
    us := Continue(lo, hi, ts, es, fs, GrowFrom(ts[|es|], p, v0, v0, n, e, needs).0);
  }
}
