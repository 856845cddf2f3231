/** Whole kernel calls on user memory, as compositions of the steps of CowSteps. */
module CowCalls {
  import opened Options
  import opened Blocks
  import opened Cow
  import opened CowSteps

  // ---------- uvmunmap

  /** uvmunmap with do_free: release pages v..v+n of process p in ascending order. */
  ghost function Unmap(s: Vm, p: nat, v: nat, n: nat): Vm
    decreases n
  {
    if n == 0 || !Live(s, (p, v)) then s else Unmap(Release(s, (p, v)), p, v + 1, n - 1)
  }

  ghost predicate Mapped(s: Vm, p: nat, v: nat, n: nat) {
    forall i: nat | v <= i < v + n :: (p, i) in s.pt
  }

  ghost predicate Vacant(s: Vm, p: nat, v: nat, n: nat) {
    forall i: nat | v <= i < v + n :: (p, i) !in s.pt
  }

  ghost function Keys(p: nat, v: nat, n: nat): set<Key> {
    set i: nat | v <= i < v + n :: (p, i)
  }

  /** Exactly the range disappears from what processes read. */
  lemma {:induction false} UnmapOk(s: Vm, p: nat, v: nat, n: nat)
    requires Inv(s) && Mapped(s, p, v, n)
    ensures var s' := Unmap(s, p, v, n);
      && Inv(s') && View(s') == View(s) - Keys(p, v, n)
      && s'.pt == s.pt - Keys(p, v, n) && s'.leaked == s.leaked && s'.kern == s.kern
    decreases n
  {
    hide Inv, View, Backed, Release;
    if n == 0 {
      assert Keys(p, v, n) == {};
      InvBacked(s);
    } else {
      ReleaseOk(s, (p, v));
      var s1 := Release(s, (p, v));
      ReleaseFrame(s, (p, v));
      UnmapOk(s1, p, v + 1, n - 1);
      assert Keys(p, v, n) == {(p, v)} + Keys(p, v + 1, n - 1);
      InvBacked(s);
      assert View(s) - {(p, v)} - Keys(p, v + 1, n - 1) == View(s) - Keys(p, v, n);
      assert s.pt - {(p, v)} - Keys(p, v + 1, n - 1) == s.pt - Keys(p, v, n);
    }
  }

  lemma ReleaseFrame(s: Vm, k: Key)
    requires Live(s, k)
    ensures var s' := Release(s, k); s'.pt == s.pt - {k} && s'.leaked == s.leaked && s'.kern == s.kern
  {
    hide Fill;
  }

  // ---------- mappages

  /** The table pages walk allocates for a mapping: up to need of them, fewer when memory runs out. */
  function Tables(s: Vm, need: nat): (Vm, bool)
    decreases need
  {
    if need == 0 then (s, true)
    else
      var a := KernAlloc(s);
      if a.None? then (s, false) else Tables(a.value.0, need - 1)
  }

  lemma {:induction false} TablesOk(s: Vm, need: nat)
    requires Inv(s)
    ensures var s' := Tables(s, need).0;
      && Inv(s') && View(s') == View(s) && s'.pt == s.pt && s'.leaked == s.leaked && s.kern <= s'.kern
    decreases need
  {
    hide Inv, View, Backed, Fill;
    if need > 0 {
      var a := KernAlloc(s);
      if a.Some? {
        KernAllocOk(s);
        TablesOk(a.value.0, need - 1);
      }
    }
  }

  // ---------- uvmcopy

  /** One pass: count the page again and mark the parent's entry, then map it in the child,
      for which mappages may need table pages. */
  function CopyPass(s: Vm, k: Key, j: Key, need: nat): (Vm, bool)
    requires k in s.pt && s.pt[k].ppn in s.refs
  {
    var (s1, ok) := Tables(ShareFailed(s, k), need);
    if ok then (Name(s1, j, Shared(s.pt[k])), true) else (s1, false)
  }

  /** A pass that succeeds gives the child the page's content; one that fails changes nothing anyone reads,
      but leaves the page's count raised for good. */
  lemma CopyPassOk(s: Vm, k: Key, j: Key, need: nat)
    requires Inv(s) && k in s.pt && j !in s.pt
    ensures Live(s, k)
    ensures var (s', ok) := CopyPass(s, k, j, need);
      && Inv(s') && k in View(s) && View(s') == (if ok then View(s)[j := View(s)[k]] else View(s))
      && s'.leaked == (if ok then s.leaked else s.leaked + multiset{s.pt[k].ppn})
      && s'.pt == (if ok then s.pt[k := Shared(s.pt[k])][j := Shared(s.pt[k])] else s.pt[k := Shared(s.pt[k])])
  {
    hide Inv, View, Backed, Tables;
    ShareFailedOk(s, k);
    InvCell(s, k);
    var s1 := ShareFailed(s, k);
    TablesOk(s1, need);
    var (s2, ok) := Tables(s1, need);
    if ok {
      var e := Shared(s.pt[k]);
      CopyAddable(s, k, s2);
      NameOk(s2, j, e);
      SeenThrough(s, s2, k);
      assert s2.leaked - multiset{e.ppn} == s.leaked;
    }
  }

  lemma CopyAddable(s: Vm, k: Key, s2: Vm)
    requires Inv(s) && k in s.pt && s2.pt == s.pt[k := Shared(s.pt[k])] && s2.leaked[s.pt[k].ppn] > 0
    ensures Addable(s2, Shared(s.pt[k]))
  {
    hide Domains, FreeOk, CountsOk, KernOk;
  }

  /** Where two states are read alike, an entry of both on the same page finds the same content there. */
  lemma SeenThrough(s: Vm, s2: Vm, k: Key)
    requires Inv(s) && Inv(s2) && View(s2) == View(s) && k in s.pt && k in s2.pt && s2.pt[k].ppn == s.pt[k].ppn
    ensures s.pt[k].ppn in s.mem && s.pt[k].ppn in s2.mem && s2.mem[s.pt[k].ppn] == s.mem[s.pt[k].ppn]
  {
    hide Domains, FreeOk, CountsOk, KernOk, PtesOk, WritersOk;
    assert View(s2)[k] == View(s)[k];
  }

  /** uvmcopy from page i on: needs[v] table pages must be allocated to map page v in the child.
      On failure the child's pages 0..i are released again. */
  ghost function CopyFrom(s: Vm, p: nat, q: nat, i: nat, n: nat, needs: seq<nat>): (Vm, bool)
    requires |needs| == n && i <= n
    decreases n - i
  {
    if i == n || !Live(s, (p, i)) then (s, true)
    else
      var (s1, ok) := CopyPass(s, (p, i), (q, i), needs[i]);
      if ok then CopyFrom(s1, p, q, i + 1, n, needs) else (Unmap(s1, q, 0, i), false)
  }

  /** Plain memory after copying pages i..i+m of process p into process q. */
  ghost function Duplicate(v: map<Key, Cell>, p: nat, q: nat, i: nat, m: nat): map<Key, Cell>
    requires forall x: nat | i <= x < i + m :: (p, x) in v
  {
    map k | k in v.Keys + Keys(q, i, m) :: if k in Keys(q, i, m) then v[(p, k.1)] else v[k]
  }

  lemma DuplicateStep(v: map<Key, Cell>, p: nat, q: nat, i: nat, m: nat)
    requires p != q && m > 0 && forall x: nat | i <= x < i + m :: (p, x) in v
    ensures forall x: nat | i + 1 <= x < i + m :: (p, x) in v[(q, i) := v[(p, i)]]
    ensures Duplicate(v[(q, i) := v[(p, i)]], p, q, i + 1, m - 1) == Duplicate(v, p, q, i, m)
  {
    assert Keys(q, i, m) == {(q, i)} + Keys(q, i + 1, m - 1);
  }

  lemma InView(s: Vm)
    requires Inv(s)
    ensures Backed(s) && View(s).Keys == s.pt.Keys
    ensures forall k | k in s.pt :: s.pt[k].ppn in s.mem && View(s)[k] == Cell(s.mem[s.pt[k].ppn], RightsOf(s.pt[k]))
  {
    hide Domains, FreeOk, CountsOk, KernOk, PtesOk, WritersOk;
  }

  lemma MappedInView(s: Vm, p: nat, i: nat, m: nat)
    requires Inv(s) && Mapped(s, p, i, m)
    ensures forall x: nat | i <= x < i + m :: (p, x) in View(s)
  {
    hide Inv, View, Backed;
    InView(s);
  }

  lemma DropCopied(v: map<Key, Cell>, q: nat, i: nat, page: Cell)
    requires (q, i) !in v
    ensures v[(q, i) := page] - Keys(q, 0, i + 1) == v - Keys(q, 0, i)
  {
    assert Keys(q, 0, i + 1) == Keys(q, 0, i) + {(q, i)};
  }

  lemma {:induction false} CopyFromOk(s: Vm, p: nat, q: nat, i: nat, n: nat, needs: seq<nat>)
    requires Inv(s) && p != q && |needs| == n && i <= n
    requires Mapped(s, p, 0, n) && Mapped(s, q, 0, i) && Vacant(s, q, i, n - i)
    ensures var (s', ok) := CopyFrom(s, p, q, i, n, needs);
      && Inv(s')
      && (ok ==>
            && Mapped(s, p, i, n - i)
            && (MappedInView(s, p, i, n - i); View(s') == Duplicate(View(s), p, q, i, n - i)))
      && (!ok ==> View(s') == View(s) - Keys(q, 0, i))
    decreases n - i
  {
    hide Inv, View, Backed, CopyPass, Unmap, Duplicate, Keys;
    InView(s);
    MappedInView(s, p, i, n - i);
    if i < n {
      var k, j := (p, i), (q, i);
      CopyPassOk(s, k, j, needs[i]);
      var (s1, ok) := CopyPass(s, k, j, needs[i]);
      if ok {
        CopyFromOk(s1, p, q, i + 1, n, needs);
        DuplicateStep(View(s), p, q, i, n - i);
        DropCopied(View(s), q, i, View(s)[k]);
      } else {
        UnmapOk(s1, q, 0, i);
      }
    } else {
      DuplicateNone(View(s), p, q, i);
    }
  }

  lemma DuplicateNone(v: map<Key, Cell>, p: nat, q: nat, i: nat)
    ensures Duplicate(v, p, q, i, 0) == v
  {
    assert Keys(q, i, 0) == {};
  }

  /** A page of p that a failing uvmcopy left counted once too often. */
  ghost predicate LeftCounted(s: Vm, s': Vm, p: nat, v: nat) {
    (p, v) in s.pt && s'.leaked == s.leaked + multiset{s.pt[(p, v)].ppn}
  }

  lemma {:induction false} CopyFromLeaks(s: Vm, p: nat, q: nat, i: nat, n: nat, needs: seq<nat>)
    requires Inv(s) && p != q && |needs| == n && i <= n
    requires Mapped(s, p, 0, n) && Mapped(s, q, 0, i) && Vacant(s, q, i, n - i)
    ensures var (s', ok) := CopyFrom(s, p, q, i, n, needs);
      if ok then s'.leaked == s.leaked else exists v: nat :: v < n && LeftCounted(s, s', p, v)
    decreases n - i
  {
    hide Inv, View, Backed, CopyPass, Unmap;
    if i < n {
      var k, j := (p, i), (q, i);
      CopyPassOk(s, k, j, needs[i]);
      var (s1, ok) := CopyPass(s, k, j, needs[i]);
      if ok {
        CopyFromLeaks(s1, p, q, i + 1, n, needs);
        var (s', ok') := CopyFrom(s1, p, q, i + 1, n, needs);
        if !ok' {
          var v: nat :| v < n && LeftCounted(s1, s', p, v);
          assert LeftCounted(s, s', p, v);
        }
      } else {
        UnmapOk(s1, q, 0, i);
        assert LeftCounted(s, Unmap(s1, q, 0, i), p, i);
      }
    }
  }

  /** uvmcopy over all n pages: on success the child reads what an eager copy would give it and nothing else
      changes; on failure every process reads what it did before, and one page of the parent stays counted
      once too often. */
  lemma UvmcopyIsEager(s: Vm, p: nat, q: nat, n: nat, needs: seq<nat>)
    requires Inv(s) && p != q && |needs| == n && Mapped(s, p, 0, n) && Vacant(s, q, 0, n)
    ensures var (s', ok) := CopyFrom(s, p, q, 0, n, needs);
      && Inv(s')
      && (forall x: nat | x < n :: (p, x) in View(s))
      && (if ok then View(s') == Duplicate(View(s), p, q, 0, n) && s'.leaked == s.leaked
          else View(s') == View(s) && exists v: nat :: v < n && LeftCounted(s, s', p, v))
  {
    hide Inv, View, Backed, CopyFrom, LeftCounted;
    CopyFromOk(s, p, q, 0, n, needs);
    CopyFromLeaks(s, p, q, 0, n, needs);
    MappedInView(s, p, 0, n);
    InView(s);
    assert Keys(q, 0, 0) == {};
    assert View(s) - {} == View(s);
  }

  // ---------- uvmalloc

  /** One pass of uvmalloc's loop: a zeroed page, mapped if the table pages can be had and freed otherwise. */
  function GrowPass(s: Vm, k: Key, e: Pte, need: nat): (Vm, bool) {
    var a := Fresh(s);
    if a.None? then (s, false)
    else
      var (s1, y) := a.value;
      var (s2, ok) := Tables(SetMem(s1, y, Fill(0)), need);
      if ok then (Name(s2, k, e.(ppn := y)), true)
      else if y in s2.refs && s2.refs[y] > 0 then (DropRef(s2, y), false) else (s2, false)
  }

  lemma GrowPassOk(s: Vm, k: Key, e: Pte, need: nat)
    requires Inv(s) && k !in s.pt && !(e.w && e.c)
    ensures var (s', ok) := GrowPass(s, k, e, need);
      && Inv(s') && s'.leaked == s.leaked
      && View(s') == (if ok then View(s)[k := Cell(Fill(0), RightsOf(e))] else View(s))
      && s'.pt.Keys == (if ok then s.pt.Keys + {k} else s.pt.Keys)
  {
    hide Inv, View, Backed, Fill, Unused, Tables, Fresh;
    if Fresh(s).Some? {
      FreshOk(s);
      var (s1, y) := Fresh(s).value;
      UnusedNames(s, y);
      SetMemOk(s1, y, Fill(0));
      var s2 := SetMem(s1, y, Fill(0));
      TablesOk(s2, need);
      var (s3, ok) := Tables(s2, need);
      FreshLeak(s, s1, y);
      TablesMem(s2, need, y);
      if ok {
        NameOk(s3, k, e.(ppn := y));
      } else {
        DropRefOk(s3, y);
        DropRefFrame(s3, y);
      }
    }
  }

  lemma FreshLeak(s: Vm, s1: Vm, y: nat)
    requires Fresh(s) == Some((s1, y))
    ensures s1.leaked == s.leaked + multiset{y} && s1.leaked - multiset{y} == s.leaked
  {
  }

  lemma DropRefFrame(s: Vm, y: nat)
    requires y in s.refs && s.refs[y] > 0
    ensures DropRef(s, y).pt == s.pt && DropRef(s, y).leaked == s.leaked - multiset{y}
  {
    hide Fill;
  }

  /** Taking table pages leaves the content of every page in use. */
  lemma {:induction false} TablesMem(s: Vm, need: nat, y: nat)
    requires Inv(s) && y in s.mem && s.leaked[y] > 0
    ensures var s' := Tables(s, need).0; y in s'.mem && s'.mem[y] == s.mem[y]
    decreases need
  {
    hide Inv, View, Backed, Fill;
    if need > 0 {
      var a := KernAlloc(s);
      if a.Some? {
        KernAllocOk(s);
        KallocFresh(s);
        TablesMem(a.value.0, need - 1, y);
      }
    }
  }

  /** uvmalloc from page i on, begun at page v0; on failure pages v0..i are released again. */
  ghost function GrowFrom(s: Vm, p: nat, v0: nat, i: nat, n: nat, e: Pte, needs: seq<nat>): (Vm, bool)
    requires v0 <= i <= n && |needs| == n
    decreases n - i
  {
    if i == n then (s, true)
    else
      var (s1, ok) := GrowPass(s, (p, i), e, needs[i]);
      if ok then GrowFrom(s1, p, v0, i + 1, n, e, needs) else (Unmap(s1, p, v0, i - v0), false)
  }

  /** Plain memory with zeroed pages i..i+m, of the given rights, added to process p. */
  ghost function Zeroed(v: map<Key, Cell>, p: nat, i: nat, m: nat, rights: Rights): map<Key, Cell> {
    v + map k | k in Keys(p, i, m) :: Cell(Fill(0), rights)
  }

  lemma {:induction false} GrowFromOk(s: Vm, p: nat, v0: nat, i: nat, n: nat, e: Pte, needs: seq<nat>)
    requires Inv(s) && v0 <= i <= n && |needs| == n && !(e.w && e.c)
    requires Mapped(s, p, v0, i - v0) && Vacant(s, p, i, n - i)
    ensures var (s', ok) := GrowFrom(s, p, v0, i, n, e, needs);
      && Inv(s') && s'.leaked == s.leaked
      && View(s') == (if ok then Zeroed(View(s), p, i, n - i, RightsOf(e)) else View(s) - Keys(p, v0, i - v0))
    decreases n - i
  {
    hide Inv, View, Backed, GrowPass, Unmap, Fill, Keys, Zeroed;
    InView(s);
    if i < n {
      var k := (p, i);
      GrowPassOk(s, k, e, needs[i]);
      var (s1, ok) := GrowPass(s, k, e, needs[i]);
      if ok {
        GrowFromOk(s1, p, v0, i + 1, n, e, needs);
        ZeroedStep(View(s), p, i, n - i, RightsOf(e));
        DropMapped(View(s), p, v0, i, Cell(Fill(0), RightsOf(e)));
      } else {
        UnmapOk(s1, p, v0, i - v0);
      }
    } else {
      ZeroedNone(View(s), p, i, RightsOf(e));
    }
  }

  lemma ZeroedNone(v: map<Key, Cell>, p: nat, i: nat, rights: Rights)
    ensures Zeroed(v, p, i, 0, rights) == v
  {
    assert Keys(p, i, 0) == {};
  }

  lemma ZeroedStep(v: map<Key, Cell>, p: nat, i: nat, m: nat, rights: Rights)
    requires m > 0
    ensures Zeroed(v[(p, i) := Cell(Fill(0), rights)], p, i + 1, m - 1, rights) == Zeroed(v, p, i, m, rights)
  {
    KeysSplit(p, i, m);
    ZeroedMaps(v, (p, i), Keys(p, i + 1, m - 1), Cell(Fill(0), rights));
  }

  lemma KeysSplit(p: nat, i: nat, m: nat)
    requires m > 0
    ensures Keys(p, i, m) == {(p, i)} + Keys(p, i + 1, m - 1)
  {
  }

  lemma ZeroedMaps(v: map<Key, Cell>, k: Key, ks: set<Key>, z: Cell)
    ensures v[k := z] + (map j | j in ks :: z) == v + (map j | j in {k} + ks :: z)
  {
  }

  lemma DropMapped(v: map<Key, Cell>, p: nat, v0: nat, i: nat, page: Cell)
    requires v0 <= i && (p, i) !in v
    ensures v[(p, i) := page] - Keys(p, v0, i + 1 - v0) == v - Keys(p, v0, i - v0)
  {
    assert Keys(p, v0, i + 1 - v0) == Keys(p, v0, i - v0) + {(p, i)};
  }

  // ---------- when uvmalloc succeeds

  /** Pages taken for virtual pages i..n: one each, and the table pages. */
  ghost function Wanted(needs: seq<nat>, i: nat, n: nat): nat
    requires i <= n <= |needs|
    decreases n - i
  {
    if i == n then 0 else needs[i] + 1 + Wanted(needs, i + 1, n)
  }

  lemma {:induction false} TablesTake(s: Vm, need: nat)
    ensures Tables(s, need).1 <==> need <= |s.free|
    ensures need <= |s.free| ==> |Tables(s, need).0.free| == |s.free| - need
    decreases need
  {
    if need > 0 && s.free != [] {
      TablesTake(KernAlloc(s).value.0, need - 1);
    }
  }

  lemma {:induction false} GrowExact(s: Vm, p: nat, v0: nat, i: nat, n: nat, e: Pte, needs: seq<nat>)
    requires v0 <= i <= n == |needs|
    ensures GrowFrom(s, p, v0, i, n, e, needs).1 <==> Wanted(needs, i, n) <= |s.free|
    decreases n - i
  {
    hide Fill, Unmap, Tables;
    if i < n {
      if s.free != [] {
        TablesTake(SetMem(Fresh(s).value.0, Fresh(s).value.1, Fill(0)), needs[i]);
      }
      var (s1, ok) := GrowPass(s, (p, i), e, needs[i]);
      assert ok <==> needs[i] + 1 <= |s.free|;
      if ok {
        GrowExact(s1, p, v0, i + 1, n, e, needs);
      }
    }
  }

  /** uvmalloc gives the process every page of v0..n zeroed, or leaves what everyone reads as it was;
      no other process is affected and no reference is lost either way.  It fails only for want of pages. */
  lemma UvmallocAllOrNothing(s: Vm, p: nat, v0: nat, n: nat, e: Pte, needs: seq<nat>)
    requires Inv(s) && v0 <= n && |needs| == n && !(e.w && e.c) && Vacant(s, p, v0, n - v0)
    ensures var (s', ok) := GrowFrom(s, p, v0, v0, n, e, needs);
      && Inv(s') && s'.leaked == s.leaked
      && View(s') == (if ok then Zeroed(View(s), p, v0, n - v0, RightsOf(e)) else View(s))
      && (ok <==> Wanted(needs, v0, n) <= |s.free|)
  {
    hide Inv, View, Backed, GrowFrom, Zeroed;
    GrowExact(s, p, v0, v0, n, e, needs);
    GrowFromOk(s, p, v0, v0, n, e, needs);
    InView(s);
    assert Keys(p, v0, 0) == {};
    assert View(s) - {} == View(s);
  }
}
