/** The kernel's operations on user pages, each shown to keep the invariant of Cow and to change what
    processes read exactly as plain memory would. */
module CowSteps {
  import opened Options
  import opened Blocks
  import opened Cow

  ghost predicate Live(s: Vm, k: Key) {
    k in s.pt && s.pt[k].ppn in s.refs && s.pt[k].ppn in s.mem && s.refs[s.pt[k].ppn] > 0
  }

  /** A mapped page has a positive count, so kfree and IncrementAndGetPageReference cannot panic on it. */
  lemma MappedLive(s: Vm, k: Key)
    requires Inv(s) && k in s.pt
    ensures Live(s, k) && Managed(s, s.pt[k].ppn) && s.pt[k].ppn !in s.kern
  {
    hide FreeOk, WritersOk, KernOk;
    assert k in Names(s.pt, s.pt[k].ppn);
  }

  // ---------- fork

  /** One pass of uvmcopy's loop: count the page again, mark the parent's entry, map it in the child. */
  function SharePage(s: Vm, k: Key, j: Key): Vm
    requires k in s.pt && s.pt[k].ppn in s.refs
  {
    var x := s.pt[k].ppn;
    var e := Shared(s.pt[k]);
    s.(refs := s.refs[x := s.refs[x] + 1], pt := s.pt[k := e][j := e])
  }

  /** The child's page has the parent's content and the parent's rights, and nobody else's memory changes. */
  lemma SharePageOk(s: Vm, k: Key, j: Key)
    requires Inv(s) && k in s.pt && j !in s.pt
    ensures Live(s, k) && Inv(SharePage(s, k, j)) && k in View(s)
    ensures View(SharePage(s, k, j)) == View(s)[j := View(s)[k]]
  {
    hide Inv, View, Backed;
    MappedLive(s, k);
    InvCell(s, k);
    var x := s.pt[k].ppn;
    var s1 := TakeRef(s, x);
    TakeRefOk(s, x);
    DemoteOk(s1, k);
    var s2 := Demote(s1, k);
    NameOk(s2, j, Shared(s.pt[k]));
    assert Name(s2, j, Shared(s.pt[k])) == SharePage(s, k, j);
  }

  /** The pass of uvmcopy whose mappages fails: the count stays raised and the parent's entry stays marked. */
  function ShareFailed(s: Vm, k: Key): Vm
    requires k in s.pt && s.pt[k].ppn in s.refs
  {
    var x := s.pt[k].ppn;
    s.(refs := s.refs[x := s.refs[x] + 1], pt := s.pt[k := Shared(s.pt[k])], leaked := s.leaked + multiset{x})
  }

  lemma ShareFailedOk(s: Vm, k: Key)
    requires Inv(s) && k in s.pt
    ensures Live(s, k) && Inv(ShareFailed(s, k)) && View(ShareFailed(s, k)) == View(s)
  {
    hide Inv, View, Backed;
    MappedLive(s, k);
    var x := s.pt[k].ppn;
    TakeRefOk(s, x);
    DemoteOk(TakeRef(s, x), k);
    assert Demote(TakeRef(s, x), k) == ShareFailed(s, k);
  }

  // ---------- release

  /** One pass of uvmunmap's loop with do_free: drop the page's reference and clear the entry. */
  function Release(s: Vm, k: Key): Vm
    requires k in s.pt && s.pt[k].ppn in s.refs && s.refs[s.pt[k].ppn] > 0
  {
    var s1 := Kfree(s, s.pt[k].ppn);
    s1.(pt := s1.pt - {k})
  }

  lemma ReleaseOk(s: Vm, k: Key)
    requires Inv(s) && k in s.pt
    ensures Live(s, k) && Inv(Release(s, k)) && View(Release(s, k)) == View(s) - {k}
  {
    hide Inv, View, Backed, Fill;
    MappedLive(s, k);
    var x := s.pt[k].ppn;
    UnnameOk(s, k);
    var s1 := Unname(s, k);
    DropRefOk(s1, x);
    assert s1.leaked - multiset{x} == s.leaked;
    assert DropRef(s1, x) == Release(s, k);
  }

  // ---------- page faults

  /** The entry handle_page_fault stores: the private copy, writable and no longer copy-on-write. */
  function Private(e: Pte, y: nat): Pte {
    e.(ppn := y, w := true, c := false)
  }

  /** handle_page_fault on a copy-on-write entry: copy into a fresh page, point the entry there, drop the old page. */
  function SplitPage(s: Vm, k: Key): (r: Option<Vm>)
    requires Live(s, k)
  {
    var x := s.pt[k].ppn;
    var a := Kalloc(s);
    if a.None? then None
    else
      var (s1, y) := a.value;
      if x in s1.mem && x in s1.refs && s1.refs[x] > 0 then
        Some(Kfree(s1.(mem := s1.mem[y := s1.mem[x]], pt := s1.pt[k := Private(s.pt[k], y)]), x))
      else None
  }

  /** The steps of SplitPage: fresh page, copy, clear, set, drop. */
  ghost predicate SplitSteps(s: Vm, k: Key, s1: Vm, y: nat, s2: Vm, s3: Vm, s4: Vm)
    requires k in s.pt && s.pt[k].ppn in s.mem
  {
    && Fresh(s) == Some((s1, y))
    && s2 == SetMem(s1, y, s.mem[s.pt[k].ppn])
    && k in s2.pt && s3 == Unname(s2, k)
    && s4 == Name(s3, k, Private(s.pt[k], y))
  }

  /** The fresh page holds a copy; nobody reads it yet. */
  lemma SplitCopy(s: Vm, k: Key) returns (s1: Vm, y: nat, s2: Vm)
    requires Inv(s) && k in s.pt && Kalloc(s).Some?
    ensures Live(s, k) && Fresh(s) == Some((s1, y)) && s2 == SetMem(s1, y, s.mem[s.pt[k].ppn]) && Unused(s, y)
    ensures Inv(s2) && View(s2) == View(s) && s2.pt == s.pt && s2.leaked[y] > 0
  {
    hide Inv, View, Backed, Fill, Unused;
    MappedLive(s, k);
    FreshOk(s);
    var f := Fresh(s).value;
    s1, y := f.0, f.1;
    UnusedNames(s, y);
    SetMemOk(s1, y, s.mem[s.pt[k].ppn]);
    s2 := SetMem(s1, y, s.mem[s.pt[k].ppn]);
  }

  /** Moving the entry from the shared page to the copy changes nothing the process reads. */
  lemma SplitMove(s: Vm, k: Key, s2: Vm, y: nat)
    requires Inv(s) && k in s.pt && s.pt[k].ppn in s.mem && Unused(s, y)
    requires Inv(s2) && View(s2) == View(s) && s2.pt == s.pt && s2.leaked[y] > 0
    requires y in s2.mem && s2.mem[y] == s.mem[s.pt[k].ppn]
    ensures var s4 := Name(Unname(s2, k), k, Private(s.pt[k], y));
      && Inv(s4) && s4.leaked[s.pt[k].ppn] > 0
      && (RightsOf(s.pt[k]).w ==> View(s4) == View(s))
  {
    hide Inv, View, Backed, Unused;
    UnnameOk(s2, k);
    var s3 := Unname(s2, k);
    SplitAddable(s, s3, y, k);
    UnusedElsewhere(s, y, k);
    NameOk(s3, k, Private(s.pt[k], y));
    InvBacked(s);
    if RightsOf(s.pt[k]).w {
      assert RightsOf(Private(s.pt[k], y)) == RightsOf(s.pt[k]);
      Restored(s, k, View(s), s.pt[k].ppn);
    }
  }

  lemma InvBacked(s: Vm)
    requires Inv(s)
    ensures Backed(s)
  {
  }

  lemma InvCell(s: Vm, k: Key)
    requires Inv(s) && k in s.pt
    ensures s.pt[k].ppn in s.mem && k in View(s) && View(s)[k] == Cell(s.mem[s.pt[k].ppn], RightsOf(s.pt[k]))
  {
    hide Domains, FreeOk, CountsOk, KernOk, PtesOk, WritersOk;
  }

  lemma SplitFirst(s: Vm, k: Key) returns (s1: Vm, y: nat, s2: Vm, s3: Vm, s4: Vm)
    requires Inv(s) && k in s.pt && Kalloc(s).Some?
    ensures Live(s, k) && SplitSteps(s, k, s1, y, s2, s3, s4) && y != s.pt[k].ppn
    ensures Inv(s4) && s4.leaked[s.pt[k].ppn] > 0 && (RightsOf(s.pt[k]).w ==> View(s4) == View(s))
  {
    hide Inv, View, Backed, Fill, Unused, Fresh;
    s1, y, s2 := SplitCopy(s, k);
    UnusedElsewhere(s, y, k);
    SplitMove(s, k, s2, y);
    s3 := Unname(s2, k);
    s4 := Name(s3, k, Private(s.pt[k], y));
  }

  lemma Restored(s: Vm, k: Key, v: map<Key, Cell>, x: nat)
    requires Backed(s) && v == View(s) && k in s.pt && s.pt[k].ppn == x
    ensures x in s.mem && (v - {k})[k := Cell(s.mem[x], RightsOf(s.pt[k]))] == v
  {
  }

  lemma UnusedElsewhere(s: Vm, y: nat, k: Key)
    requires Unused(s, y) && k in s.pt
    ensures s.pt[k].ppn != y && s.leaked[y] == 0
  {
  }

  lemma UnusedNames(s: Vm, y: nat)
    requires Unused(s, y)
    ensures forall j | j in s.pt :: s.pt[j].ppn != y
  {
  }

  lemma SplitAddable(s: Vm, s3: Vm, y: nat, k: Key)
    requires k in s.pt && Unused(s, y) && s3.pt == s.pt - {k} && s3.leaked[y] > 0
    ensures Addable(s3, Private(s.pt[k], y))
  {
  }

  /** Splitting a page that may be written changes nobody's memory, and leaves its entry alone on a page that its
      process can write now.  It fails only when no page is free. */
  lemma SplitOk(s: Vm, k: Key)
    requires Inv(s) && k in s.pt
    ensures Live(s, k) && (SplitPage(s, k).None? <==> s.free == [])
    ensures SplitPage(s, k).Some? ==>
      var s' := SplitPage(s, k).value;
      && Inv(s') && k in s'.pt && s'.pt[k].w && !s'.pt[k].c && s'.leaked == s.leaked
      && (RightsOf(s.pt[k]).w ==> View(s') == View(s))
      && s'.pt == s.pt[k := Private(s.pt[k], s'.pt[k].ppn)]
  {
    hide Inv, View, Backed, Fill, Unused;
    MappedLive(s, k);
    if s.free != [] {
      var s1, y, s2, s3, s4 := SplitFirst(s, k);
      var x := s.pt[k].ppn;
      DropRefOk(s4, x);
      SplitIsSteps(s, k, s1, y, s2, s3, s4);
    }
  }

  lemma SplitIsSteps(s: Vm, k: Key, s1: Vm, y: nat, s2: Vm, s3: Vm, s4: Vm)
    requires Live(s, k) && SplitSteps(s, k, s1, y, s2, s3, s4) && y != s.pt[k].ppn
    ensures var x := s.pt[k].ppn; x in s4.refs && s4.refs[x] > 0 && SplitPage(s, k) == Some(DropRef(s4, x))
  {
    hide Fill;
    var x := s.pt[k].ppn;
    assert s4.pt == s.pt[k := Private(s.pt[k], y)];
    assert s4.leaked - multiset{x} == s.leaked;
  }

  // ---------- new pages

  /** A pass of uvmalloc's loop, or uvmfirst and exec's loading: a fresh page with the given content. */
  function MapNew(s: Vm, k: Key, e: Pte, page: Page): (r: Option<Vm>) {
    var a := Kalloc(s);
    if a.None? then None
    else
      var (s1, y) := a.value;
      Some(s1.(mem := s1.mem[y := page], pt := s1.pt[k := e.(ppn := y)]))
  }

  lemma MapNewOk(s: Vm, k: Key, e: Pte, page: Page)
    requires Inv(s) && k !in s.pt && !(e.w && e.c) && MapNew(s, k, e, page).Some?
    ensures var s' := MapNew(s, k, e, page).value; Inv(s') && View(s') == View(s)[k := Cell(page, RightsOf(e))]
  {
    hide Inv, View, Backed, Fill, Unused;
    FreshOk(s);
    var (s1, y) := Fresh(s).value;
    UnusedNames(s, y);
    SetMemOk(s1, y, page);
    var s2 := SetMem(s1, y, page);
    NameOk(s2, k, e.(ppn := y));
    assert s2.leaked - multiset{y} == s.leaked;
    assert Name(s2, k, e.(ppn := y)) == MapNew(s, k, e, page).value;
  }

  // ---------- the kernel's own pages

  function KernAlloc(s: Vm): (r: Option<(Vm, nat)>) {
    var a := Kalloc(s);
    if a.None? then None else Some((a.value.0.(kern := s.kern + {a.value.1}), a.value.1))
  }

  lemma KernAllocOk(s: Vm)
    requires Inv(s) && KernAlloc(s).Some?
    ensures var s' := KernAlloc(s).value.0; Inv(s') && View(s') == View(s) && s'.pt == s.pt
  {
    hide Inv, View, Backed, Fill, Unused;
    FreshOk(s);
    var (s1, y) := Fresh(s).value;
    AdoptOk(s1, y);
    assert s1.leaked - multiset{y} == s.leaked;
    assert Adopt(s1, y) == KernAlloc(s).value.0;
  }

  function KernFree(s: Vm, y: nat): Vm
    requires y in s.refs && s.refs[y] > 0
  {
    var s1 := Kfree(s, y);
    s1.(kern := s1.kern - {y})
  }

  lemma KernFreeOk(s: Vm, y: nat)
    requires Inv(s) && y in s.kern
    ensures y in s.refs && s.refs[y] == 1 && Inv(KernFree(s, y)) && View(KernFree(s, y)) == View(s)
  {
    hide Inv, View, Backed, Fill;
    KernCount(s, y);
    DisownOk(s, y);
    DropRefOk(Disown(s, y), y);
    assert s.leaked + multiset{y} - multiset{y} == s.leaked;
    assert DropRef(Disown(s, y), y) == KernFree(s, y);
  }

  /** The kernel's own pages are counted once. */
  lemma KernCount(s: Vm, y: nat)
    requires Inv(s) && y in s.kern
    ensures y in s.refs && s.refs[y] == 1
  {
    hide FreeOk, WritersOk;
    assert forall k | k in s.pt :: s.pt[k].ppn != y;
    assert Names(s.pt, y) == {};
  }

  // ---------- stores

  /** A store straight to the physical page behind an entry. */
  function WritePage(s: Vm, k: Key, page: Page): Vm
    requires k in s.pt
  {
    SetMem(s, s.pt[k].ppn, page)
  }

  /** It is seen through every entry that names the page. */
  lemma WritePageView(s: Vm, k: Key, page: Page, j: Key)
    requires Inv(s) && k in s.pt && j in s.pt
    ensures var s' := WritePage(s, k, page);
      && Inv(s') && j in View(s')
      && View(s')[j] == Cell(if s.pt[j].ppn == s.pt[k].ppn then page else s.mem[s.pt[j].ppn], RightsOf(s.pt[j]))
  {
    MappedLive(s, k);
    SetMemKeeps(s, s.pt[k].ppn, page);
  }

  /** A store is private to its process exactly when its entry is the page's only one, or the content does not
      change. */
  lemma WriteExact(s: Vm, k: Key, page: Page)
    requires Inv(s) && k in s.pt
    ensures Live(s, k) && Inv(WritePage(s, k, page)) && k in View(s)
    ensures View(WritePage(s, k, page)) == View(s)[k := View(s)[k].(page := page)]
       <==> (Names(s.pt, s.pt[k].ppn) == {k} || page == s.mem[s.pt[k].ppn])
  {
    hide Domains, FreeOk, CountsOk, KernOk, PtesOk, WritersOk;
    MappedLive(s, k);
    var x := s.pt[k].ppn;
    SetMemKeeps(s, x, page);
    var s' := WritePage(s, k, page);
    assert forall j | j in s.pt :: View(s')[j] == if s.pt[j].ppn == x then View(s)[j].(page := page) else View(s)[j];
    assert k in Names(s.pt, x);
    if Names(s.pt, x) != {k} && page != s.mem[x] {
      var j :| j in Names(s.pt, x) && j != k;
      assert View(s')[j] != View(s)[k := View(s)[k].(page := page)][j];
    } else {
      assert forall j | j in s.pt && j != k && s.pt[j].ppn == x :: j in Names(s.pt, x);
      assert View(s') == View(s)[k := View(s)[k].(page := page)];
    }
  }

  /** A store through a writable entry reaches only its own process. */
  lemma StoreOk(s: Vm, k: Key, page: Page)
    requires Inv(s) && k in s.pt && s.pt[k].w
    ensures Inv(WritePage(s, k, page)) && k in View(s)
    ensures View(WritePage(s, k, page)) == View(s)[k := View(s)[k].(page := page)]
  {
    hide Inv, View, Backed;
    Alone(s, k);
    WriteExact(s, k, page);
  }

  lemma Alone(s: Vm, k: Key)
    requires Inv(s) && k in s.pt && s.pt[k].w
    ensures Names(s.pt, s.pt[k].ppn) == {k}
  {
    hide Domains, FreeOk, CountsOk, KernOk, PtesOk;
  }
}
