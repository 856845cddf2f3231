/** Every run of the copy-on-write kernel against plain memory that fork copies eagerly. */
module CowRuns {
  import opened Options
  import opened Blocks
  import opened Cow
  import opened CowSteps

  datatype Event =
    | DoShare(k: Key, child: nat)              // a pass of uvmcopy
    | DoShareFailed(k: Key)                    // its last pass when mappages fails
    | DoRelease(k: Key)                        // a pass of uvmunmap
    | DoSplit(k: Key)                          // handle_page_fault returning 0 on a copy-on-write page
    | DoMap(k: Key, e: Pte, page: Page)        // a pass of uvmalloc
    | DoStore(k: Key, page: Page)              // a user store, or copyout to a writable page
    | DoKernAlloc                              // kalloc for a page table, stack or pipe
    | DoKernFree(y: nat)
    | DoKernStore(y: nat, page: Page)

  /** The next state, where the kernel permits the event. */
  ghost predicate Next(s: Vm, e: Event, s': Vm) {
    match e
    case DoShare(k, child) =>
      k in s.pt && s.pt[k].ppn in s.refs && child != k.0 && (child, k.1) !in s.pt && s' == SharePage(s, k, (child, k.1))
    case DoShareFailed(k) => k in s.pt && s.pt[k].ppn in s.refs && s' == ShareFailed(s, k)
    case DoRelease(k) => Live(s, k) && s' == Release(s, k)
    case DoSplit(k) => Live(s, k) && s.pt[k].c && SplitPage(s, k) == Some(s')
    case DoMap(k, f, page) => k !in s.pt && !(f.w && f.c) && MapNew(s, k, f, page) == Some(s')
    case DoStore(k, page) => k in s.pt && s.pt[k].w && s' == WritePage(s, k, page)
    case DoKernAlloc => KernAlloc(s).Some? && s' == KernAlloc(s).value.0
    case DoKernFree(y) => y in s.kern && y in s.refs && s.refs[y] > 0 && s' == KernFree(s, y)
    case DoKernStore(y, page) => y in s.kern && s' == SetMem(s, y, page)
  }

  /** Plain memory: what each process reads and may do when fork copies the page, with its rights, at once. */
  ghost function EagerStep(v: map<Key, Cell>, e: Event): map<Key, Cell> {
    match e
    case DoShare(k, child) => if k in v then v[(child, k.1) := v[k]] else v
    case DoRelease(k) => v - {k}
    case DoMap(k, e, page) => v[k := Cell(page, Rights(e.r, e.w || e.c, e.x, e.u))]
    case DoStore(k, page) => if k in v then v[k := v[k].(page := page)] else v
    case _ => v
  }

  ghost function Eager(es: seq<Event>): map<Key, Cell> {
    if es == [] then map[] else EagerStep(Eager(es[..|es| - 1]), es[|es| - 1])
  }

  // ---------- the first state

  /** The free list that freerange builds: every page of lo..hi, the last one first. */
  function Descending(lo: nat, hi: nat): seq<nat>
    requires lo <= hi
  {
    if lo == hi then [] else [hi - 1 as nat] + Descending(lo, hi - 1)
  }

  lemma {:induction false} DescendingOnce(lo: nat, hi: nat, x: nat)
    requires lo <= hi
    ensures multiset(Descending(lo, hi))[x] == Count(lo <= x < hi)
    decreases hi
  {
    if lo < hi {
      DescendingOnce(lo, hi - 1, x);
    }
  }

  /** After kinit: every managed page is free and nothing is mapped. */
  ghost function Boot(lo: nat, hi: nat): Vm
    requires lo <= hi
  {
    Vm(lo, hi, map x: nat | lo <= x < hi && Between(lo, x, hi) :: Fill(1),
       map x: nat | lo <= x < hi && Between(lo, x, hi) :: 0, Descending(lo, hi), map[], {}, multiset{})
  }

  ghost predicate Between(lo: nat, x: nat, hi: nat) {
    lo <= x < hi
  }

  lemma BootFree(lo: nat, hi: nat)
    requires 0 < lo <= hi
    ensures Domains(Boot(lo, hi)) && FreeOk(Boot(lo, hi))
  {
    hide Fill, Descending;
    var s := Boot(lo, hi);
    assert forall x: nat :: Managed(s, x) == Between(lo, x, hi);
    forall x: nat ensures multiset(s.free)[x] == Count(Managed(s, x) && x in s.refs && s.refs[x] == 0) {
      DescendingOnce(lo, hi, x);
    }
  }

  lemma BootInv(lo: nat, hi: nat)
    requires 0 < lo <= hi
    ensures Inv(Boot(lo, hi)) && View(Boot(lo, hi)) == map[]
  {
    hide Fill, FreeOk, Descending;
    var s := Boot(lo, hi);
    BootFree(lo, hi);
    assert forall x: nat :: Names(s.pt, x) == {};
    assert forall x: nat | Managed(s, x) :: Between(lo, x, hi);
  }

  // ---------- runs

  ghost predicate Run(lo: nat, hi: nat, ts: seq<Vm>, es: seq<Event>) {
    && 0 < lo <= hi
    && |ts| == |es| + 1
    && ts[0] == Boot(lo, hi)
    && forall n: nat | n < |es| :: Next(ts[n], es[n], ts[n + 1])
  }

  lemma StepShare(s: Vm, e: Event, s': Vm)
    requires Inv(s) && Next(s, e, s') && (e.DoShare? || e.DoShareFailed? || e.DoRelease?)
    ensures Inv(s') && View(s') == EagerStep(View(s), e)
  {
    hide Inv, SharePage, ShareFailed, Release;
    match e
    case DoShare(k, child) => SharePageOk(s, k, (child, k.1)); InvBacked(s);
    case DoShareFailed(k) => ShareFailedOk(s, k);
    case DoRelease(k) => ReleaseOk(s, k);
  }

  lemma StepPage(s: Vm, e: Event, s': Vm)
    requires Inv(s) && Next(s, e, s') && (e.DoSplit? || e.DoMap? || e.DoStore?)
    ensures Inv(s') && View(s') == EagerStep(View(s), e)
  {
    hide Inv, View, Backed, SplitPage, MapNew, WritePage;
    match e
    case DoSplit(k) => SplitOk(s, k);
    case DoMap(k, f, page) => MapNewOk(s, k, f, page);
    case DoStore(k, page) => StoreOk(s, k, page);
  }

  lemma StepKern(s: Vm, e: Event, s': Vm)
    requires Inv(s) && Next(s, e, s') && (e.DoKernAlloc? || e.DoKernFree? || e.DoKernStore?)
    ensures Inv(s') && View(s') == EagerStep(View(s), e)
  {
    hide Inv, View, Backed, KernAlloc, KernFree;
    match e
    case DoKernAlloc => KernAllocOk(s);
    case DoKernFree(y) => KernFreeOk(s, y);
    case DoKernStore(y, page) => KernStoreOk(s, y, page);
  }

  lemma KernStoreOk(s: Vm, y: nat, page: Page)
    requires Inv(s) && y in s.kern
    ensures Inv(SetMem(s, y, page)) && View(SetMem(s, y, page)) == View(s)
  {
    hide Domains, FreeOk, CountsOk, WritersOk;
    SetMemOk(s, y, page);
  }

  /** Every step keeps the invariant and changes what processes read and may do exactly as plain memory would. */
  lemma StepEager(s: Vm, e: Event, s': Vm)
    requires Inv(s) && Next(s, e, s')
    ensures Inv(s') && View(s') == EagerStep(View(s), e)
  {
    hide Inv, View, Next, EagerStep;
    match e
    case DoShare(_, _) => StepShare(s, e, s');
    case DoShareFailed(_) => StepShare(s, e, s');
    case DoRelease(_) => StepShare(s, e, s');
    case DoSplit(_) => StepPage(s, e, s');
    case DoMap(_, _, _) => StepPage(s, e, s');
    case DoStore(_, _) => StepPage(s, e, s');
    case DoKernAlloc => StepKern(s, e, s');
    case DoKernFree(_) => StepKern(s, e, s');
    case DoKernStore(_, _) => StepKern(s, e, s');
  }

  /** Copy-on-write fork refines eager copy: in every run, at every point, each process has the memory,
      contents and rights, that it would have had if fork had copied every page. */
  lemma {:induction false} CowIsEager(lo: nat, hi: nat, ts: seq<Vm>, es: seq<Event>, n: nat)
    requires Run(lo, hi, ts, es) && n <= |es|
    ensures Inv(ts[n]) && View(ts[n]) == Eager(es[..n])
  {
    hide Inv, View, Next;
    if n == 0 {
      BootInv(lo, hi);
    } else {
      CowIsEager(lo, hi, ts, es, n - 1);
      StepEager(ts[n - 1], es[n - 1], ts[n - 1 + 1]);
      assert es[..n][..n - 1] == es[..n - 1];
    }
  }

  /** In every run, a page named by two entries is writable through neither. */
  lemma SharedReadOnly(lo: nat, hi: nat, ts: seq<Vm>, es: seq<Event>, n: nat, k: Key, j: Key)
    requires Run(lo, hi, ts, es) && n <= |es| && k != j
    requires k in ts[n].pt && j in ts[n].pt && ts[n].pt[k].ppn == ts[n].pt[j].ppn
    ensures !ts[n].pt[k].w && !ts[n].pt[j].w
  {
    hide Next, Domains, FreeOk, CountsOk;
    CowIsEager(lo, hi, ts, es, n);
  }

  // ---------- reference counts

  /** No uvmcopy failed part way. */
  ghost predicate NoFailure(es: seq<Event>) {
    forall n: nat | n < |es| :: !es[n].DoShareFailed?
  }

  lemma StepLeak(s: Vm, e: Event, s': Vm)
    requires Inv(s) && Next(s, e, s') && !e.DoShareFailed?
    ensures s'.leaked == s.leaked
  {
    hide Inv, Fill;
  }

  lemma {:induction false} NoLeak(lo: nat, hi: nat, ts: seq<Vm>, es: seq<Event>, n: nat)
    requires Run(lo, hi, ts, es) && n <= |es| && NoFailure(es[..n])
    ensures ts[n].leaked == multiset{}
  {
    hide Inv, Next;
    if n > 0 {
      assert forall i: nat | i < n - 1 :: es[..n - 1][i] == es[..n][i];
      NoLeak(lo, hi, ts, es, n - 1);
      CowIsEager(lo, hi, ts, es, n - 1);
      assert es[..n][n - 1] == es[n - 1];
      StepLeak(ts[n - 1], es[n - 1], ts[n - 1 + 1]);
    }
  }

  /** In every run: the free list holds each managed page of count 0 once and nothing else.  A page's count is
      at least the number of entries naming it, and equal for user pages when no uvmcopy failed part way. */
  lemma CountsInRuns(lo: nat, hi: nat, ts: seq<Vm>, es: seq<Event>, n: nat, x: nat)
    requires Run(lo, hi, ts, es) && n <= |es|
    ensures var s := ts[n];
      && (multiset(s.free)[x] == if Managed(s, x) && x in s.refs && s.refs[x] == 0 then 1 else 0)
      && (Managed(s, x) ==> x in s.refs && s.refs[x] >= |Names(s.pt, x)|)
      && (Managed(s, x) && x !in s.kern && NoFailure(es[..n]) ==> s.refs[x] == |Names(s.pt, x)|)
  {
    hide Next, NoFailure;
    CowIsEager(lo, hi, ts, es, n);
    if NoFailure(es[..n]) {
      NoLeak(lo, hi, ts, es, n);
    }
  }

  /** In every run, the page kalloc would hand out next is mapped by no process and not held by the kernel. */
  lemma KallocUnmapped(lo: nat, hi: nat, ts: seq<Vm>, es: seq<Event>, n: nat, k: Key)
    requires Run(lo, hi, ts, es) && n <= |es| && Kalloc(ts[n]).Some?
    ensures var y := Kalloc(ts[n]).value.1;
      && Managed(ts[n], y) && y !in ts[n].kern && (k in ts[n].pt ==> ts[n].pt[k].ppn != y)
  {
    hide Inv, Next;
    CowIsEager(lo, hi, ts, es, n);
    KallocFresh(ts[n]);
  }
}
