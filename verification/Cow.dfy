/** Copy-on-write memory: the page allocator with reference counts of kalloc.c, and the user page
    tables as flat maps from (process, virtual page) to page-table entries.  Sv39 has the radix trees
    that implement such maps.  The specification is plain memory that fork copies eagerly. */
module Cow {
  import opened Options
  import opened Blocks

  const PGSIZE := 4096

  type Page = b: seq<byte> | |b| == PGSIZE witness seq(PGSIZE, _ => 0)

  /** A process and a virtual page number. */
  type Key = (nat, nat)

  /** A valid leaf entry: physical page number and the R, W, X, U and C bits. */
  datatype Pte = Pte(ppn: nat, r: bool, w: bool, x: bool, u: bool, c: bool)

  /** What a process may do with a page; w says that it may write, after a copy if need be. */
  datatype Rights = Rights(r: bool, w: bool, x: bool, u: bool)

  function RightsOf(e: Pte): Rights {
    Rights(e.r, e.w || e.c, e.x, e.u)
  }

  /** A page of plain memory. */
  datatype Cell = Cell(page: Page, rights: Rights)

  datatype Vm = Vm(
    lo: nat, hi: nat,            // managed pages: from the end of the kernel to PHYSTOP
    mem: map<nat, Page>,
    refs: map<nat, nat>,         // pageRefCount
    free: seq<nat>,              // kmem.freelist
    pt: map<Key, Pte>,
    kern: set<nat>,              // pages the kernel holds itself: page tables, stacks, pipes
    leaked: multiset<nat>)       // references taken by a uvmcopy pass that failed to map

  function Fill(v: byte): Page {
    seq(PGSIZE, _ => v)
  }

  /** The entries that name a physical page. */
  function Names(pt: map<Key, Pte>, x: nat): set<Key> {
    set k | k in pt && pt[k].ppn == x
  }

  predicate Managed(s: Vm, x: nat) {
    s.lo <= x < s.hi
  }

  // ---------- what every step keeps

  /** Counts and contents exist for exactly the managed pages. */
  ghost predicate Domains(s: Vm) {
    && 0 < s.lo
    && (forall x: nat :: x in s.refs <==> Managed(s, x))
    && (forall x: nat :: x in s.mem <==> Managed(s, x))
  }

  /** The free list holds exactly the managed pages with count 0, each once. */
  ghost predicate FreeOk(s: Vm) {
    forall x: nat :: multiset(s.free)[x] == Count(Managed(s, x) && x in s.refs && s.refs[x] == 0)
  }

  /** A page's count is the number of entries naming it, plus its kernel use, plus leaks. */
  ghost predicate CountsOk(s: Vm)
    requires Domains(s)
  {
    forall x: nat | Managed(s, x) :: s.refs[x] == |Names(s.pt, x)| + s.leaked[x] + Count(x in s.kern)
  }

  /** Kernel pages are managed, not mapped and not leaked; leaks are of managed pages. */
  ghost predicate KernOk(s: Vm) {
    && (forall x: nat | x in s.kern :: Managed(s, x) && s.leaked[x] == 0)
    && (forall x: nat | s.leaked[x] > 0 :: Managed(s, x))
  }

  /** Entries name managed user pages, and a writable one is not marked copy-on-write. */
  ghost predicate PtesOk(s: Vm) {
    forall k | k in s.pt :: Managed(s, s.pt[k].ppn) && s.pt[k].ppn !in s.kern && !(s.pt[k].w && s.pt[k].c)
  }

  /** A page named by two entries is writable through neither. */
  ghost predicate WritersOk(s: Vm) {
    forall k, j | k in s.pt && j in s.pt && s.pt[k].w && s.pt[j].ppn == s.pt[k].ppn :: j == k
  }

  ghost predicate Inv(s: Vm) {
    Domains(s) && FreeOk(s) && CountsOk(s) && KernOk(s) && PtesOk(s) && WritersOk(s) && Backed(s)
  }

  ghost predicate Backed(s: Vm) {
    forall k | k in s.pt :: s.pt[k].ppn in s.mem
  }

  /** The memory each process has: what it reads and what it may do. */
  ghost function View(s: Vm): map<Key, Cell>
    requires Backed(s)
  {
    map k | k in s.pt :: Cell(s.mem[s.pt[k].ppn], RightsOf(s.pt[k]))
  }

  // ---------- the allocator

  /** kalloc: the head of the free list, with count 1 and junk content. */
  function Kalloc(s: Vm): (r: Option<(Vm, nat)>)
  {
    if s.free == [] then None
    else
      var x := s.free[0];
      var n := if x in s.refs then s.refs[x] else 0;
      Some((s.(free := s.free[1..], refs := s.refs[x := n + 1], mem := s.mem[x := Fill(5)]), x))
  }

  /** kfree after its argument checks: drop a reference, and put the page on the free list if it was the last. */
  function Kfree(s: Vm, x: nat): Vm
    requires x in s.refs && s.refs[x] > 0
  {
    if s.refs[x] > 1 then s.(refs := s.refs[x := s.refs[x] - 1])
    else s.(refs := s.refs[x := 0], mem := s.mem[x := Fill(1)], free := [x] + s.free)
  }

  /** Nothing uses page y. */
  ghost predicate Unused(s: Vm, y: nat) {
    && Managed(s, y) && y in s.refs && s.refs[y] == 0 && y !in s.kern && s.leaked[y] == 0
    && forall k | k in s.pt :: s.pt[k].ppn != y
  }

  lemma NotNamed(pt: map<Key, Pte>, x: nat)
    requires |Names(pt, x)| == 0
    ensures forall k | k in pt :: pt[k].ppn != x
  {
    assert forall k | k in pt :: k !in Names(pt, x);
  }

  /** kalloc never hands out a page that is mapped, held by the kernel or leaked. */
  lemma KallocFresh(s: Vm)
    requires Inv(s) && Kalloc(s).Some?
    ensures Unused(s, Kalloc(s).value.1)
  {
    var x := s.free[0];
    assert x in multiset(s.free);
    NotNamed(s.pt, x);
  }

  lemma KallocFree(s: Vm)
    requires FreeOk(s) && Kalloc(s).Some?
    ensures FreeOk(Kalloc(s).value.0)
  {
    hide Fill;
    var (s', x) := Kalloc(s).value;
    assert s.free == [x] + s'.free;
    assert multiset(s.free) == multiset{x} + multiset(s'.free);
    assert multiset(s.free)[x] == Count(Managed(s, x) && x in s.refs && s.refs[x] == 0);
    forall y: nat ensures multiset(s'.free)[y] == Count(Managed(s', y) && y in s'.refs && s'.refs[y] == 0) {
      assert multiset(s.free)[y] == Count(Managed(s, y) && y in s.refs && s.refs[y] == 0);
    }
  }

  lemma KfreeFree(s: Vm, x: nat)
    requires FreeOk(s) && x in s.refs && s.refs[x] > 0 && Managed(s, x)
    ensures FreeOk(Kfree(s, x))
  {
  }

  // ---------- entries change

  lemma NamesOfUpdate(pt: map<Key, Pte>, k: Key, e: Pte, x: nat)
    ensures Names(pt[k := e], x) ==
      (if e.ppn == x then Names(pt, x) + {k} else Names(pt, x) - {k})
  {
  }

  lemma NamesOfRemove(pt: map<Key, Pte>, k: Key, x: nat)
    ensures Names(pt - {k}, x) == Names(pt, x) - {k}
  {
  }

  /** One entry more or less changes one count by one. */
  lemma CountOfUpdate(pt: map<Key, Pte>, k: Key, e: Pte, x: nat)
    ensures |Names(pt[k := e], x)| ==
      |Names(pt, x)| - Count(k in pt && pt[k].ppn == x) + Count(e.ppn == x)
  {
    NamesOfUpdate(pt, k, e, x);
  }

  lemma CountOfRemove(pt: map<Key, Pte>, k: Key, x: nat)
    requires k in pt
    ensures |Names(pt - {k}, x)| == |Names(pt, x)| - Count(pt[k].ppn == x)
  {
    NamesOfRemove(pt, k, x);
  }

  // ---------- primitive steps: each moves one reference or changes one entry

  lemma FreeFrame(s: Vm, s': Vm)
    requires FreeOk(s) && s'.free == s.free && s'.refs == s.refs && s'.lo == s.lo && s'.hi == s.hi
    ensures FreeOk(s')
  {
  }

  /** Everything about entries alone: kernel pages, validity, single writers. */
  ghost predicate Entries(s: Vm) {
    KernOk(s) && PtesOk(s) && WritersOk(s)
  }

  lemma Assemble(s: Vm)
    requires Domains(s) && FreeOk(s) && CountsOk(s) && Entries(s)
    ensures Inv(s)
  {
    hide FreeOk, CountsOk, WritersOk, KernOk;
  }

  lemma Disassemble(s: Vm)
    requires Inv(s)
    ensures Domains(s) && FreeOk(s) && CountsOk(s) && Entries(s) && Backed(s)
  {
  }

  /** IncrementAndGetPageReference on a page in use: a reference no entry stands for yet. */
  function TakeRef(s: Vm, x: nat): Vm
    requires x in s.refs
  {
    s.(refs := s.refs[x := s.refs[x] + 1], leaked := s.leaked + multiset{x})
  }

  lemma TakeRefCounts(s: Vm, x: nat)
    requires Domains(s) && FreeOk(s) && CountsOk(s) && Managed(s, x) && s.refs[x] > 0
    ensures Domains(TakeRef(s, x)) && FreeOk(TakeRef(s, x)) && CountsOk(TakeRef(s, x))
  {
    hide Names;
  }

  lemma TakeRefEntries(s: Vm, x: nat)
    requires x in s.refs && Entries(s) && Managed(s, x) && x !in s.kern
    ensures Entries(TakeRef(s, x))
  {
  }

  lemma TakeRefOk(s: Vm, x: nat)
    requires Inv(s) && x in s.refs && Managed(s, x) && s.refs[x] > 0 && x !in s.kern
    ensures Inv(TakeRef(s, x)) && View(TakeRef(s, x)) == View(s)
  {
    hide Domains, FreeOk, CountsOk, Entries, Inv;
    Disassemble(s);
    TakeRefCounts(s, x);
    TakeRefEntries(s, x);
    Assemble(TakeRef(s, x));
  }

  /** kfree of a reference no entry stands for. */
  function DropRef(s: Vm, x: nat): Vm
    requires x in s.refs && s.refs[x] > 0
  {
    Kfree(s, x).(leaked := s.leaked - multiset{x})
  }

  lemma LeakedCounts(s: Vm, x: nat)
    requires Inv(s) && s.leaked[x] > 0
    ensures Managed(s, x) && x in s.refs && s.refs[x] > 0 && x !in s.kern
    ensures s.refs[x] == 1 ==> forall k | k in s.pt :: s.pt[k].ppn != x
  {
    hide FreeOk, WritersOk;
    if s.refs[x] == 1 {
      NotNamed(s.pt, x);
    }
  }

  lemma DropRefCounts(s: Vm, x: nat)
    requires Domains(s) && CountsOk(s) && s.leaked[x] > 0 && x in s.refs && s.refs[x] > 0
    ensures Domains(DropRef(s, x)) && CountsOk(DropRef(s, x))
  {
    hide Names, Fill;
  }

  lemma DropRefEntries(s: Vm, x: nat)
    requires x in s.refs && s.refs[x] > 0 && Entries(s)
    ensures Entries(DropRef(s, x))
  {
    hide Fill;
  }

  lemma DropRefView(s: Vm, x: nat)
    requires Backed(s) && x in s.refs && s.refs[x] > 0
    requires s.refs[x] == 1 ==> forall k | k in s.pt :: s.pt[k].ppn != x
    ensures Backed(DropRef(s, x)) && View(DropRef(s, x)) == View(s)
  {
    hide Fill;
  }

  lemma DropRefOk(s: Vm, x: nat)
    requires Inv(s) && s.leaked[x] > 0
    ensures x in s.refs && s.refs[x] > 0
    ensures Inv(DropRef(s, x)) && View(DropRef(s, x)) == View(s)
  {
    hide Domains, FreeOk, CountsOk, Entries, Backed, Inv, View;
    LeakedCounts(s, x);
    Disassemble(s);
    KfreeFree(s, x);
    FreeFrame(Kfree(s, x), DropRef(s, x));
    DropRefCounts(s, x);
    DropRefEntries(s, x);
    Assemble(DropRef(s, x));
    DropRefView(s, x);
  }

  /** kalloc: a fresh page, its one reference standing for no entry yet. */
  function Fresh(s: Vm): (r: Option<(Vm, nat)>) {
    var a := Kalloc(s);
    if a.None? then None else Some((a.value.0.(leaked := s.leaked + multiset{a.value.1}), a.value.1))
  }

  lemma FreshCounts(s: Vm)
    requires Domains(s) && CountsOk(s) && Fresh(s).Some? && Unused(s, Fresh(s).value.1)
    ensures Domains(Fresh(s).value.0) && CountsOk(Fresh(s).value.0)
  {
    hide Names, Fill;
  }

  lemma FreshEntries(s: Vm)
    requires Backed(s) && Entries(s) && Fresh(s).Some? && Unused(s, Fresh(s).value.1)
    ensures var s' := Fresh(s).value.0; Entries(s') && Backed(s') && View(s') == View(s)
  {
    hide Fill;
  }

  lemma FreshOk(s: Vm)
    requires Inv(s) && Fresh(s).Some?
    ensures var (s', y) := Fresh(s).value;
      && Inv(s') && View(s') == View(s) && Unused(s, y) && s'.leaked[y] == 1 && s'.pt == s.pt && Managed(s', y)
      && y in s'.refs && s'.refs[y] == 1
      && forall x: nat | x in s.mem && x != y :: x in s'.mem && s'.mem[x] == s.mem[x]
  {
    hide Domains, FreeOk, CountsOk, Entries, Backed, Inv, View, Fill;
    KallocFresh(s);
    Disassemble(s);
    KallocFree(s);
    FreeFrame(Kalloc(s).value.0, Fresh(s).value.0);
    FreshCounts(s);
    FreshEntries(s);
    Assemble(Fresh(s).value.0);
  }

  function SetMem(s: Vm, x: nat, page: Page): Vm {
    s.(mem := s.mem[x := page])
  }

  lemma SetMemKeeps(s: Vm, y: nat, page: Page)
    requires Inv(s) && Managed(s, y)
    ensures Inv(SetMem(s, y, page))
  {
    hide FreeOk, WritersOk, Names;
    FreeFrame(s, SetMem(s, y, page));
    assert Domains(SetMem(s, y, page));
    assert WritersOk(SetMem(s, y, page)) by { WritersFrame(s, SetMem(s, y, page)); }
  }

  lemma WritersFrame(s: Vm, s': Vm)
    requires WritersOk(s) && s'.pt == s.pt
    ensures WritersOk(s')
  {
  }

  /** Writing to a page no entry names changes nobody's memory. */
  lemma SetMemOk(s: Vm, y: nat, page: Page)
    requires Inv(s) && Managed(s, y) && forall k | k in s.pt :: s.pt[k].ppn != y
    ensures Inv(SetMem(s, y, page)) && View(SetMem(s, y, page)) == View(s)
  {
    hide Domains, FreeOk, CountsOk, KernOk, PtesOk, WritersOk;
    SetMemKeeps(s, y, page);
  }

  /** Clear an entry; its reference stays. */
  function Unname(s: Vm, k: Key): Vm
    requires k in s.pt
  {
    s.(pt := s.pt - {k}, leaked := s.leaked + multiset{s.pt[k].ppn})
  }

  lemma UnnameCounts(s: Vm, k: Key)
    requires Domains(s) && CountsOk(s) && k in s.pt
    ensures Domains(Unname(s, k)) && CountsOk(Unname(s, k))
  {
    var s' := Unname(s, k);
    forall z: nat | Managed(s, z) ensures s'.refs[z] == |Names(s'.pt, z)| + s'.leaked[z] + Count(z in s'.kern) {
      CountOfRemove(s.pt, k, z);
    }
  }

  lemma UnnameEntries(s: Vm, k: Key)
    requires Entries(s) && Backed(s) && k in s.pt
    ensures Entries(Unname(s, k)) && Backed(Unname(s, k)) && View(Unname(s, k)) == View(s) - {k}
  {
    var s' := Unname(s, k);
    assert forall j | j in s'.pt :: j in s.pt && s'.pt[j] == s.pt[j];
    assert WritersOk(s');
  }

  lemma UnnameOk(s: Vm, k: Key)
    requires Inv(s) && k in s.pt
    ensures Inv(Unname(s, k)) && View(Unname(s, k)) == View(s) - {k}
  {
    hide Domains, FreeOk, CountsOk, Entries, Backed, Inv, View;
    Disassemble(s);
    FreeFrame(s, Unname(s, k));
    UnnameCounts(s, k);
    UnnameEntries(s, k);
    Assemble(Unname(s, k));
  }

  /** Set an entry to stand for a reference taken before. */
  function Name(s: Vm, k: Key, e: Pte): Vm {
    s.(pt := s.pt[k := e], leaked := s.leaked - multiset{e.ppn})
  }

  /** e may be added: it is not writable and copy-on-write, and writers stay alone. */
  ghost predicate Addable(s: Vm, e: Pte) {
    && s.leaked[e.ppn] > 0 && !(e.w && e.c)
    && forall j | j in s.pt && s.pt[j].ppn == e.ppn :: !e.w && !s.pt[j].w
  }

  lemma NameCounts(s: Vm, k: Key, e: Pte)
    requires Domains(s) && CountsOk(s) && k !in s.pt && s.leaked[e.ppn] > 0
    ensures Domains(Name(s, k, e)) && CountsOk(Name(s, k, e))
  {
    var s' := Name(s, k, e);
    forall z: nat | Managed(s, z) ensures s'.refs[z] == |Names(s'.pt, z)| + s'.leaked[z] + Count(z in s'.kern) {
      CountOfUpdate(s.pt, k, e, z);
    }
  }

  lemma NameEntries(s: Vm, k: Key, e: Pte)
    requires Entries(s) && k !in s.pt && Addable(s, e)
    ensures Entries(Name(s, k, e))
  {
    var s' := Name(s, k, e);
    assert KernOk(s');
    assert PtesOk(s');
    assert WritersOk(s');
  }

  lemma NameView(s: Vm, k: Key, e: Pte)
    requires Backed(s) && k !in s.pt && e.ppn in s.mem
    ensures Backed(Name(s, k, e)) && View(Name(s, k, e)) == View(s)[k := Cell(s.mem[e.ppn], RightsOf(e))]
  {
  }

  lemma NameOk(s: Vm, k: Key, e: Pte)
    requires Inv(s) && k !in s.pt && Addable(s, e)
    ensures e.ppn in s.mem && Inv(Name(s, k, e)) && View(Name(s, k, e)) == View(s)[k := Cell(s.mem[e.ppn], RightsOf(e))]
  {
    hide FreeOk, CountsOk, Entries, Backed, Inv, View, Addable;
    LeakedInMem(s, e);
    Disassemble(s);
    FreeFrame(s, Name(s, k, e));
    NameCounts(s, k, e);
    NameEntries(s, k, e);
    Assemble(Name(s, k, e));
    NameView(s, k, e);
  }

  lemma LeakedInMem(s: Vm, e: Pte)
    requires Inv(s) && Addable(s, e)
    ensures s.leaked[e.ppn] > 0 && e.ppn in s.mem
  {
  }

  /** The parent's entry after a pass of uvmcopy: a writable page becomes copy-on-write. */
  function Shared(e: Pte): Pte {
    if e.w then e.(w := false, c := true) else e
  }

  function Demote(s: Vm, k: Key): Vm
    requires k in s.pt
  {
    s.(pt := s.pt[k := Shared(s.pt[k])])
  }

  lemma DemoteCounts(s: Vm, k: Key)
    requires Domains(s) && CountsOk(s) && k in s.pt
    ensures Domains(Demote(s, k)) && CountsOk(Demote(s, k))
  {
    var s' := Demote(s, k);
    forall z: nat | Managed(s, z) ensures s'.refs[z] == |Names(s'.pt, z)| + s'.leaked[z] + Count(z in s'.kern) {
      CountOfUpdate(s.pt, k, s'.pt[k], z);
    }
  }

  /** A demoted page is writable through no entry. */
  lemma DemoteEntries(s: Vm, k: Key)
    requires Entries(s) && Backed(s) && k in s.pt
    ensures var s' := Demote(s, k);
      && Entries(s') && Backed(s') && View(s') == View(s)
      && forall j | j in s'.pt && s'.pt[j].ppn == s.pt[k].ppn :: !s'.pt[j].w
  {
    var s' := Demote(s, k);
    assert WritersOk(s');
  }

  lemma DemoteOk(s: Vm, k: Key)
    requires Inv(s) && k in s.pt
    ensures var s' := Demote(s, k);
      && Inv(s') && View(s') == View(s)
      && forall j | j in s'.pt && s'.pt[j].ppn == s.pt[k].ppn :: !s'.pt[j].w
  {
    hide Domains, FreeOk, CountsOk, Entries, Backed, Inv, View;
    Disassemble(s);
    FreeFrame(s, Demote(s, k));
    DemoteCounts(s, k);
    DemoteEntries(s, k);
    Assemble(Demote(s, k));
  }

  /** The kernel keeps a fresh page for itself. */
  function Adopt(s: Vm, y: nat): Vm {
    s.(kern := s.kern + {y}, leaked := s.leaked - multiset{y})
  }

  lemma AdoptOk(s: Vm, y: nat)
    requires Inv(s) && s.leaked[y] == 1 && y in s.refs && s.refs[y] == 1
    ensures Inv(Adopt(s, y)) && View(Adopt(s, y)) == View(s)
  {
    hide Domains, FreeOk, CountsOk, Entries, Backed, Inv, View;
    LeakedCounts(s, y);
    Disassemble(s);
    FreeFrame(s, Adopt(s, y));
    AdoptCounts(s, y);
    AdoptEntries(s, y);
    Assemble(Adopt(s, y));
  }

  lemma AdoptCounts(s: Vm, y: nat)
    requires Domains(s) && CountsOk(s) && s.leaked[y] == 1 && y !in s.kern
    ensures Domains(Adopt(s, y)) && CountsOk(Adopt(s, y))
  {
    hide Names;
  }

  lemma AdoptEntries(s: Vm, y: nat)
    requires Entries(s) && Backed(s) && s.leaked[y] == 1 && forall k | k in s.pt :: s.pt[k].ppn != y
    ensures Entries(Adopt(s, y)) && Backed(Adopt(s, y)) && View(Adopt(s, y)) == View(s)
  {
    assert WritersOk(Adopt(s, y));
  }

  /** The kernel gives up one of its own pages. */
  function Disown(s: Vm, y: nat): Vm {
    s.(kern := s.kern - {y}, leaked := s.leaked + multiset{y})
  }

  lemma DisownCounts(s: Vm, y: nat)
    requires Domains(s) && CountsOk(s) && y in s.kern
    ensures Domains(Disown(s, y)) && CountsOk(Disown(s, y))
  {
    hide Names;
  }

  lemma DisownEntries(s: Vm, y: nat)
    requires Entries(s) && Backed(s) && y in s.kern
    ensures Entries(Disown(s, y)) && Backed(Disown(s, y)) && View(Disown(s, y)) == View(s)
  {
    assert WritersOk(Disown(s, y));
  }

  lemma DisownOk(s: Vm, y: nat)
    requires Inv(s) && y in s.kern
    ensures Inv(Disown(s, y)) && View(Disown(s, y)) == View(s)
  {
    hide Domains, FreeOk, CountsOk, Entries, Backed, Inv, View;
    Disassemble(s);
    FreeFrame(s, Disown(s, y));
    DisownCounts(s, y);
    DisownEntries(s, y);
    Assemble(Disown(s, y));
  }
}
