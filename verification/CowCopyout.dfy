/** handle_page_fault and copyout, which stores for the kernel into user memory without looking at PTE_W
    and without looking at what the fault handler answered. */
module CowCopyout {
  import opened Options
  import opened Blocks
  import opened Cow
  import opened CowSteps
  import opened CowCalls
  import opened CowRuns

  const MAXVA: nat := 0x40_0000_0000         // 1 << 38
  const TWO64: nat := 0x1_0000_0000_0000_0000

  function PageDown(a: nat): nat {
    a - a % PGSIZE
  }

  /** The window below the stack pointer that the handler refuses, in 64-bit arithmetic. */
  predicate NearStack(va: nat, sp: nat) {
    (PageDown(sp) - PGSIZE) % TWO64 <= va <= PageDown(sp)
  }

  predicate Refused(va: nat, sp: nat) {
    va >= MAXVA || NearStack(va, sp)
  }

  /** The window in its own terms: the page below the one that sp is on, and that page's first address. */
  lemma RefusedWindow(va: nat, sp: nat)
    requires PGSIZE <= sp < TWO64
    ensures Refused(va, sp) <==> va >= MAXVA || va / PGSIZE == sp / PGSIZE - 1 || va == sp / PGSIZE * PGSIZE
  {
    assert PageDown(sp) == sp / PGSIZE * PGSIZE;
  }

  /** With sp on the first page the window wraps around: nothing below MAXVA is refused. */
  lemma RefusedWrapped(va: nat, sp: nat)
    requires sp < PGSIZE
    ensures Refused(va, sp) <==> va >= MAXVA
  {
    assert PageDown(sp) == 0;
  }

  // ---------- handle_page_fault

  /** A missing entry is a zero slot, whose physical address is 0. */
  function HandleFault(s: Vm, p: nat, va: nat, sp: nat): (Vm, int)
    requires (p, va / PGSIZE) in s.pt ==> Live(s, (p, va / PGSIZE))
  {
    var k := (p, va / PGSIZE);
    if Refused(va, sp) then (s, -2)
    else if k !in s.pt then (s, -1)
    else if !s.pt[k].c then (s, 0)
    else
      var r := SplitPage(s, k);
      if r.None? then (s, -1) else (r.value, 0)
  }

  ghost predicate LiveIfMapped(s: Vm, k: Key) {
    k in s.pt ==> Live(s, k)
  }

  /** The handler changes nothing any process reads.  It answers -2 exactly for the refused addresses, -1 exactly
      when there is no entry or no page for the copy, and after an answer of 0 a copy-on-write entry is writable
      and alone on its page. */
  lemma FaultOk(s: Vm, p: nat, va: nat, sp: nat)
    requires Inv(s)
    ensures LiveIfMapped(s, (p, va / PGSIZE))
    ensures var k := (p, va / PGSIZE); var (s', r) := HandleFault(s, p, va, sp);
      && Inv(s') && View(s') == View(s)
      && (r == -2 <==> Refused(va, sp))
      && (r == -1 <==> !Refused(va, sp) && (k !in s.pt || (s.pt[k].c && s.free == [])))
      && (r == 0 || r == -1 || r == -2)
      && (r != 0 || k !in s.pt || !s.pt[k].c ==> s' == s)
      && (r == 0 && s.pt[k].c ==>
            k in s'.pt && s'.pt == s.pt[k := Private(s.pt[k], s'.pt[k].ppn)] && Names(s'.pt, s'.pt[k].ppn) == {k})
  {
    hide Inv, View, Backed, SplitPage, Refused, Names;
    var k := (p, va / PGSIZE);
    if k in s.pt {
      SplitOk(s, k);
      if SplitPage(s, k).Some? {
        Alone(SplitPage(s, k).value, k);
      }
    }
  }

  // ---------- copyout

  function Patch(page: Page, off: nat, bytes: seq<byte>): Page
    requires off + |bytes| <= PGSIZE
  {
    page[..off] + bytes + page[off + |bytes|..]
  }

  /** The page of va with the bytes of src that fit in it; its rights stay. */
  function Patched(c: Cell, va: nat, src: seq<byte>): Cell {
    c.(page := Patch(c.page, va % PGSIZE, src[..Chunk(va, |src|)]))
  }

  /** How much of len bytes at va fits in va's page. */
  function Chunk(va: nat, len: nat): (n: nat)
    ensures n <= len && va % PGSIZE + n <= PGSIZE && (len > 0 ==> n > 0)
  {
    var room := PGSIZE - va % PGSIZE;
    if room > len then len else room
  }

  /** walkaddr finds a page: the address is in range and its entry is valid and user accessible. */
  predicate Walkable(s: Vm, p: nat, va: nat) {
    va < MAXVA && (p, va / PGSIZE) in s.pt && s.pt[(p, va / PGSIZE)].u
  }

  /** The state after the fault handler ran for a copy-on-write page; its answer is dropped. */
  function Faulted(s: Vm, p: nat, va: nat, sp: nat): Vm
    requires LiveIfMapped(s, (p, va / PGSIZE))
  {
    var k := (p, va / PGSIZE);
    if k in s.pt && s.pt[k].c then HandleFault(s, p, PageDown(va), sp).0 else s
  }

  /** The state once the bytes that fit in va's page are stored. */
  function Stored(s: Vm, p: nat, va: nat, src: seq<byte>, sp: nat): Vm
    requires LiveIfMapped(s, (p, va / PGSIZE))
  {
    var k := (p, va / PGSIZE);
    var s1 := Faulted(s, p, va, sp);
    if k in s1.pt && s1.pt[k].ppn in s1.mem then
      WritePage(s1, k, Patch(s1.mem[s1.pt[k].ppn], va % PGSIZE, src[..Chunk(va, |src|)]))
    else s1
  }

  ghost function Copyout(s: Vm, p: nat, va: nat, src: seq<byte>, sp: nat): (Vm, bool)
    decreases |src|
  {
    if src == [] then (s, true)
    else if !Walkable(s, p, va) || !LiveIfMapped(s, (p, va / PGSIZE)) then (s, false)
    else Copyout(Stored(s, p, va, src, sp), p, PageDown(va) + PGSIZE, src[Chunk(va, |src|)..], sp)
  }

  /** The same call on plain memory, of which `user` is the part user code may touch. */
  ghost function Put(v: map<Key, Cell>, user: set<Key>, p: nat, va: nat, src: seq<byte>): (map<Key, Cell>, bool)
    decreases |src|
  {
    var k := (p, va / PGSIZE);
    if src == [] then (v, true)
    else if va >= MAXVA || k !in v || k !in user then (v, false)
    else Put(v[k := Patched(v[k], va, src)], user, p, PageDown(va) + PGSIZE, src[Chunk(va, |src|)..])
  }

  ghost function Users(s: Vm): set<Key> {
    set k | k in s.pt && s.pt[k].u
  }

  /** Entries that name one page are at the same virtual page, as fork makes them. */
  ghost predicate Aligned(s: Vm) {
    forall k, j | k in s.pt && j in s.pt && s.pt[k].ppn == s.pt[j].ppn :: k.1 == j.1
  }

  /** The store of one pass is private to the process: the page gets split first, or the entry is alone on it,
      or the bytes are already there. */
  ghost predicate Private1(s: Vm, p: nat, va: nat, src: seq<byte>, sp: nat)
    requires Live(s, (p, va / PGSIZE))
  {
    var k := (p, va / PGSIZE);
    var x := s.pt[k].ppn;
    || (s.pt[k].c && !Refused(PageDown(va), sp) && s.free != [])
    || Names(s.pt, x) == {k}
    || Patch(s.mem[x], va % PGSIZE, src[..Chunk(va, |src|)]) == s.mem[x]
  }

  /** What the fault handler does to a walkable page before the store. */
  lemma FaultedOk(s: Vm, p: nat, va: nat, sp: nat)
    requires Inv(s) && (p, va / PGSIZE) in s.pt
    ensures Live(s, (p, va / PGSIZE))
    ensures var k := (p, va / PGSIZE); var s1 := Faulted(s, p, va, sp);
      && Inv(s1) && View(s1) == View(s) && k in s1.pt && Users(s1) == Users(s) && (Aligned(s) ==> Aligned(s1))
      && (if s.pt[k].c && !Refused(PageDown(va), sp) && s.free != []
          then Names(s1.pt, s1.pt[k].ppn) == {k} else s1 == s)
  {
    hide Inv, View, Backed, HandleFault, Refused, Live, Names;
    var k := (p, va / PGSIZE);
    MappedLive(s, k);
    assert PageDown(va) / PGSIZE == va / PGSIZE;
    FaultOk(s, p, PageDown(va), sp);
    var s1 := Faulted(s, p, va, sp);
    if s.pt[k].c && !Refused(PageDown(va), sp) && s.free != [] {
      SplitAligned(s, s1, k);
    }
  }

  lemma SplitAligned(s: Vm, s1: Vm, k: Key)
    requires k in s.pt && k in s1.pt && s1.pt == s.pt[k := Private(s.pt[k], s1.pt[k].ppn)]
    requires Names(s1.pt, s1.pt[k].ppn) == {k}
    ensures (Aligned(s) ==> Aligned(s1)) && Users(s1) == Users(s)
  {
    forall j | j in s1.pt && s1.pt[j].ppn == s1.pt[k].ppn ensures j == k {
      assert j in Names(s1.pt, s1.pt[k].ppn);
    }
  }

  /** Every process may do the same in both states. */
  ghost predicate SameRights(s: Vm, s': Vm) {
    s'.pt.Keys == s.pt.Keys && forall k | k in s.pt :: RightsOf(s'.pt[k]) == RightsOf(s.pt[k])
  }

  lemma ViewRights(s: Vm, s': Vm)
    requires Backed(s) && Backed(s') && View(s') == View(s)
    ensures SameRights(s, s')
  {
    assert s'.pt.Keys == View(s').Keys == s.pt.Keys;
    forall k | k in s.pt ensures RightsOf(s'.pt[k]) == RightsOf(s.pt[k]) {
      assert View(s')[k] == View(s)[k];
    }
  }

  /** One pass does what plain memory would exactly when its store is private. */
  lemma StoredExact(s: Vm, p: nat, va: nat, src: seq<byte>, sp: nat)
    requires Inv(s) && (p, va / PGSIZE) in s.pt
    ensures var k := (p, va / PGSIZE);
      Live(s, k) && (var s' := Stored(s, p, va, src, sp);
        && Inv(s') && (Aligned(s) ==> Aligned(s')) && Users(s') == Users(s) && View(s').Keys == s.pt.Keys == s'.pt.Keys
        && k in View(s) && SameRights(s, s')
        && (View(s') == View(s)[k := Patched(View(s)[k], va, src)]
            <==> Private1(s, p, va, src, sp)))
  {
    hide Inv, View, Backed, Faulted, Patch, Refused, Names, Aligned, Users;
    var k := (p, va / PGSIZE);
    FaultedOk(s, p, va, sp);
    var s1 := Faulted(s, p, va, sp);
    InView(s);
    InView(s1);
    var page := Patch(s1.mem[s1.pt[k].ppn], va % PGSIZE, src[..Chunk(va, |src|)]);
    assert s1.mem[s1.pt[k].ppn] == s.mem[s.pt[k].ppn] by { assert View(s1)[k] == View(s)[k]; }
    WriteExact(s1, k, page);
    InView(WritePage(s1, k, page));
    SamePt(s1, WritePage(s1, k, page));
    ViewRights(s, s1);
  }

  lemma SamePt(s: Vm, s': Vm)
    requires s.pt == s'.pt
    ensures Aligned(s) ==> Aligned(s')
    ensures Users(s) == Users(s')
  {
  }

  /** A pass is not seen at other virtual pages. */
  lemma StoredDistant(s: Vm, p: nat, va: nat, src: seq<byte>, sp: nat, j: Key)
    requires Inv(s) && Aligned(s) && (p, va / PGSIZE) in s.pt && j in s.pt && j.1 != va / PGSIZE
    ensures Live(s, (p, va / PGSIZE)) && Inv(Stored(s, p, va, src, sp))
    ensures j in View(Stored(s, p, va, src, sp)) && j in View(s) && View(Stored(s, p, va, src, sp))[j] == View(s)[j]
  {
    hide Inv, View, Backed, Faulted, Patch, Refused, Names, Users;
    var k := (p, va / PGSIZE);
    FaultedOk(s, p, va, sp);
    var s1 := Faulted(s, p, va, sp);
    InView(s);
    InView(s1);
    WritePageView(s1, k, Patch(s1.mem[s1.pt[k].ppn], va % PGSIZE, src[..Chunk(va, |src|)]), j);
  }

  // ---------- the whole call

  /** Every pass of the call stores privately. */
  ghost predicate Privately(s: Vm, p: nat, va: nat, src: seq<byte>, sp: nat)
    decreases |src|
  {
    if src == [] || !Walkable(s, p, va) || !Live(s, (p, va / PGSIZE)) then true
    else
      && Private1(s, p, va, src, sp)
      && Privately(Stored(s, p, va, src, sp), p, PageDown(va) + PGSIZE, src[Chunk(va, |src|)..], sp)
  }

  lemma NextPage(va: nat)
    ensures (PageDown(va) + PGSIZE) / PGSIZE == va / PGSIZE + 1
  {
  }

  /** Whatever copyout stores and where, nobody's rights change. */
  lemma {:induction false} CopyoutKeeps(s: Vm, p: nat, va: nat, src: seq<byte>, sp: nat)
    requires Inv(s) && Aligned(s)
    ensures var s' := Copyout(s, p, va, src, sp).0; Inv(s') && Aligned(s') && SameRights(s, s')
    decreases |src|
  {
    hide Inv, View, Backed, Stored, Aligned, Private1;
    if src != [] && Walkable(s, p, va) {
      StoredExact(s, p, va, src, sp);
      CopyoutKeeps(Stored(s, p, va, src, sp), p, PageDown(va) + PGSIZE, src[Chunk(va, |src|)..], sp);
    }
  }

  /** Pages below the destination stay as they are, in every process. */
  lemma {:induction false} CopyoutBelow(s: Vm, p: nat, va: nat, src: seq<byte>, sp: nat, j: Key)
    requires Inv(s) && Aligned(s) && j in s.pt && j.1 < va / PGSIZE
    ensures Inv(Copyout(s, p, va, src, sp).0) && j in View(s) && j in View(Copyout(s, p, va, src, sp).0)
    ensures View(Copyout(s, p, va, src, sp).0)[j] == View(s)[j]
    decreases |src|
  {
    hide Inv, View, Backed, Stored, Aligned, Private1;
    InView(s);
    if src != [] && Walkable(s, p, va) {
      StoredExact(s, p, va, src, sp);
      StoredDistant(s, p, va, src, sp, j);
      NextPage(va);
      CopyoutBelow(Stored(s, p, va, src, sp), p, PageDown(va) + PGSIZE, src[Chunk(va, |src|)..], sp, j);
    }
  }

  lemma {:induction false} PutOthers(v: map<Key, Cell>, user: set<Key>, p: nat, va: nat, src: seq<byte>, j: Key)
    requires j in v && (j.0 != p || j.1 < va / PGSIZE)
    ensures j in Put(v, user, p, va, src).0 && Put(v, user, p, va, src).0[j] == v[j]
    decreases |src|
  {
    hide Patched;
    var k := (p, va / PGSIZE);
    if !(src == [] || va >= MAXVA || k !in v || k !in user) {
      NextPage(va);
      PutOthers(v[k := Patched(v[k], va, src)], user, p, PageDown(va) + PGSIZE,
                src[Chunk(va, |src|)..], j);
    }
  }

  /** copyout answers as plain memory would, whatever happens to the stores. */
  lemma {:induction false} CopyoutAnswer(s: Vm, v: map<Key, Cell>, p: nat, va: nat, src: seq<byte>, sp: nat)
    requires Inv(s) && Aligned(s) && v.Keys == s.pt.Keys
    ensures Copyout(s, p, va, src, sp).1 == Put(v, Users(s), p, va, src).1
    decreases |src|
  {
    hide Inv, View, Backed, Stored, Aligned, Private1, Patch;
    var k := (p, va / PGSIZE);
    if src != [] && Walkable(s, p, va) {
      StoredExact(s, p, va, src, sp);
      CopyoutAnswer(Stored(s, p, va, src, sp), v[k := Patched(v[k], va, src)], p,
                    PageDown(va) + PGSIZE, src[Chunk(va, |src|)..], sp);
    }
  }

  /** A pass whose store is not private is seen by another process, at the same virtual page, and no later pass
      of the call mends it. */
  lemma Leaks(s: Vm, p: nat, va: nat, src: seq<byte>, sp: nat)
    requires Inv(s) && Aligned(s) && src != [] && Walkable(s, p, va)
    requires Live(s, (p, va / PGSIZE)) && !Private1(s, p, va, src, sp)
    ensures Inv(Copyout(s, p, va, src, sp).0)
    ensures View(Copyout(s, p, va, src, sp).0) != Put(View(s), Users(s), p, va, src).0
  {
    hide Inv, View, Backed, Aligned, Put, Private1, Stored, Users;
    InView(s);
    var j := OtherReader(s, p, va, src, sp);
    StoredExact(s, p, va, src, sp);
    NextPage(va);
    CopyoutBelow(Stored(s, p, va, src, sp), p, PageDown(va) + PGSIZE, src[Chunk(va, |src|)..], sp, j);
    PutOthers(View(s), Users(s), p, va, src, j);
  }

  lemma OtherReader(s: Vm, p: nat, va: nat, src: seq<byte>, sp: nat) returns (j: Key)
    requires Inv(s) && Aligned(s) && (p, va / PGSIZE) in s.pt && Live(s, (p, va / PGSIZE))
    requires !Private1(s, p, va, src, sp)
    ensures j in s.pt && j.0 != p && j.1 == va / PGSIZE && Inv(Stored(s, p, va, src, sp))
    ensures j in View(Stored(s, p, va, src, sp)) && j in View(s) && View(Stored(s, p, va, src, sp))[j] != View(s)[j]
  {
    hide Inv, View, Backed, Faulted, Patch, Refused, Users;
    var k := (p, va / PGSIZE);
    var x := s.pt[k].ppn;
    assert k in Names(s.pt, x);
    j :| j in Names(s.pt, x) && j != k;
    FaultedOk(s, p, va, sp);
    InView(s);
    WritePageView(s, k, Patch(s.mem[x], va % PGSIZE, src[..Chunk(va, |src|)]), j);
  }

  /** copyout leaves every process with the memory plain memory would give it if and only if every one of its
      passes stores privately, each on the state it finds. */
  lemma {:induction false} CopyoutPasses(s: Vm, p: nat, va: nat, src: seq<byte>, sp: nat)
    requires Inv(s) && Aligned(s)
    ensures Inv(Copyout(s, p, va, src, sp).0)
    ensures View(Copyout(s, p, va, src, sp).0) == Put(View(s), Users(s), p, va, src).0
       <==> Privately(s, p, va, src, sp)
    decreases |src|
  {
    hide Inv, View, Backed, Stored, Aligned, Private1, Patch;
    InView(s);
    CopyoutKeeps(s, p, va, src, sp);
    if src != [] && Walkable(s, p, va) {
      StoredExact(s, p, va, src, sp);
      if Private1(s, p, va, src, sp) {
        CopyoutPasses(Stored(s, p, va, src, sp), p, PageDown(va) + PGSIZE, src[Chunk(va, |src|)..], sp);
      } else {
        Leaks(s, p, va, src, sp);
      }
    }
  }

  // ---------- the condition before the call

  /** Page va of process p will be stored to privately, when `used` of the free pages are gone by then: it gets
      split first, or the entry is alone on it, or the bytes are already there. */
  ghost predicate Safe(s: Vm, p: nat, va: nat, src: seq<byte>, sp: nat, used: nat)
    requires Live(s, (p, va / PGSIZE))
  {
    var k := (p, va / PGSIZE);
    var q := s.pt[k].ppn;
    || (s.pt[k].c && !Refused(PageDown(va), sp) && |s.free| > used)
    || Names(s.pt, q) == {k}
    || Patch(s.mem[q], va % PGSIZE, src[..Chunk(va, |src|)]) == s.mem[q]
  }

  /** Splitting page va takes a page off the free list for good: other references keep the old one in use. */
  ghost predicate Spends(s: Vm, p: nat, va: nat, sp: nat)
    requires Live(s, (p, va / PGSIZE))
  {
    var k := (p, va / PGSIZE);
    s.pt[k].c && !Refused(PageDown(va), sp) && s.refs[s.pt[k].ppn] >= 2
  }

  /** Every destination page up to the first that is not walkable is safe; all of it is read off the state before
      the call. */
  ghost predicate SafeFrom(s: Vm, p: nat, va: nat, src: seq<byte>, sp: nat, used: nat)
    decreases |src|
  {
    if src == [] || !Walkable(s, p, va) || !Live(s, (p, va / PGSIZE)) then true
    else
      && Safe(s, p, va, src, sp, used)
      && SafeFrom(s, p, PageDown(va) + PGSIZE, src[Chunk(va, |src|)..], sp, used + Count(Spends(s, p, va, sp)))
  }

  /** Entry j, its page's content and its page's count are as in s. */
  ghost predicate SameEntry(s: Vm, t: Vm, j: Key) {
    && (j in t.pt <==> j in s.pt)
    && (j in s.pt ==>
          && t.pt[j] == s.pt[j]
          && s.pt[j].ppn in s.mem && s.pt[j].ppn in t.mem && t.mem[s.pt[j].ppn] == s.mem[s.pt[j].ppn]
          && s.pt[j].ppn in s.refs && s.pt[j].ppn in t.refs && t.refs[s.pt[j].ppn] == s.refs[s.pt[j].ppn])
  }

  /** From virtual page v up, t is as s. */
  ghost predicate SameFrom(s: Vm, t: Vm, v: nat) {
    forall j: Key | j.1 >= v :: SameEntry(s, t, j)
  }

  ghost predicate Left(s: Vm, t: Vm, used: nat) {
    |t.free| == if |s.free| > used then |s.free| - used else 0
  }

  /** A split is not noticed at other virtual pages, and uses up a free page unless it gives the old one back. */
  lemma SplitFrame(s: Vm, k: Key, j: Key)
    requires Inv(s) && Aligned(s) && k in s.pt && s.free != [] && j.1 != k.1
    ensures Live(s, k) && SplitPage(s, k).Some?
    ensures var s' := SplitPage(s, k).value;
      SameEntry(s, s', j) && |s'.free| == |s.free| - Count(s.refs[s.pt[k].ppn] >= 2)
  {
    hide Inv, View, Backed, Fill, Names, Unused;
    SplitOk(s, k);
    KallocFresh(s);
    UnusedElsewhere(s, s.free[0], k);
    if j in s.pt {
      MappedLive(s, j);
      UnusedElsewhere(s, s.free[0], j);
    }
  }

  /** The store itself is not noticed at other virtual pages. */
  lemma WriteFrame(s: Vm, k: Key, page: Page, j: Key)
    requires Inv(s) && Aligned(s) && k in s.pt && j.1 != k.1
    ensures SameEntry(s, WritePage(s, k, page), j) && WritePage(s, k, page).free == s.free
  {
    hide Inv;
    if j in s.pt {
      MappedLive(s, j);
    }
  }

  lemma SameEntryTrans(s: Vm, t: Vm, u: Vm, j: Key)
    requires SameEntry(s, t, j) && SameEntry(t, u, j)
    ensures SameEntry(s, u, j)
  {
  }

  /** One pass of copyout leaves the later pages alone and spends at most one free page. */
  lemma StoredSame(s: Vm, p: nat, va: nat, src: seq<byte>, sp: nat, j: Key)
    requires Inv(s) && Aligned(s) && (p, va / PGSIZE) in s.pt && j.1 != va / PGSIZE
    ensures Live(s, (p, va / PGSIZE))
    ensures var s' := Stored(s, p, va, src, sp);
      SameEntry(s, s', j) && |s'.free| == |s.free| - Count(Spends(s, p, va, sp) && s.free != [])
  {
    hide Inv, View, Backed, SplitPage, Patch, Refused, Names, Users, Aligned, SameEntry;
    var k := (p, va / PGSIZE);
    FaultedOk(s, p, va, sp);
    assert PageDown(va) / PGSIZE == va / PGSIZE;
    var s1 := Faulted(s, p, va, sp);
    MappedLive(s, k);
    MappedLive(s1, k);
    SameSelf(s, j);
    if s.free != [] {
      SplitFrame(s, k, j);
    } else {
      SplitOk(s, k);
    }
    WriteFrame(s1, k, Patch(s1.mem[s1.pt[k].ppn], va % PGSIZE, src[..Chunk(va, |src|)]), j);
    SameEntryTrans(s, s1, Stored(s, p, va, src, sp), j);
  }

  lemma SameSelf(s: Vm, j: Key)
    requires Inv(s)
    ensures SameEntry(s, s, j)
  {
    hide Inv;
    if j in s.pt {
      MappedLive(s, j);
    }
  }

  /** Where every entry of virtual page v is as before, so are the entries naming a page mapped there. */
  lemma SameNames(s: Vm, t: Vm, k: Key)
    requires Aligned(s) && Aligned(t) && SameFrom(s, t, k.1) && k in s.pt && k in t.pt
    ensures Names(t.pt, s.pt[k].ppn) == Names(s.pt, s.pt[k].ppn)
  {
    var q := s.pt[k].ppn;
    assert SameEntry(s, t, k);
    forall j | j in Names(s.pt, q) || j in Names(t.pt, q) ensures j in Names(s.pt, q) && j in Names(t.pt, q) {
      assert j.1 == k.1;
      assert SameEntry(s, t, j);
    }
  }

  /** On page va the state the pass finds and the state before the call say the same. */
  lemma SafeNow(s: Vm, t: Vm, p: nat, va: nat, src: seq<byte>, sp: nat, used: nat)
    requires Inv(s) && Aligned(s) && Inv(t) && Aligned(t) && SameFrom(s, t, va / PGSIZE) && Left(s, t, used)
    ensures Walkable(t, p, va) <==> Walkable(s, p, va)
    ensures Walkable(s, p, va) ==> Live(s, (p, va / PGSIZE)) && Live(t, (p, va / PGSIZE))
    ensures Walkable(s, p, va) ==> (Private1(t, p, va, src, sp) <==> Safe(s, p, va, src, sp, used))
    ensures Walkable(s, p, va) ==> (Spends(t, p, va, sp) <==> Spends(s, p, va, sp))
  {
    hide Inv, Patch, Refused, Names;
    var k := (p, va / PGSIZE);
    assert SameEntry(s, t, k);
    if Walkable(s, p, va) {
      MappedLive(s, k);
      MappedLive(t, k);
      SameNames(s, t, k);
    }
  }

  lemma {:induction false} SafeIsPrivate(s: Vm, t: Vm, p: nat, va: nat, src: seq<byte>, sp: nat, used: nat)
    requires Inv(s) && Aligned(s) && Inv(t) && Aligned(t) && SameFrom(s, t, va / PGSIZE) && Left(s, t, used)
    ensures Privately(t, p, va, src, sp) <==> SafeFrom(s, p, va, src, sp, used)
    decreases |src|
  {
    hide Inv, View, Backed, Stored, Aligned, Private1, Safe, Spends, Live, Walkable, SameEntry;
    SafeNow(s, t, p, va, src, sp, used);
    if src != [] && Walkable(s, p, va) {
      SafeStep(s, t, p, va, src, sp, used);
      SafeIsPrivate(s, Stored(t, p, va, src, sp), p, PageDown(va) + PGSIZE, src[Chunk(va, |src|)..], sp,
                    used + Count(Spends(s, p, va, sp)));
    }
  }

  /** The pass keeps the agreement on the pages after it. */
  lemma SafeStep(s: Vm, t: Vm, p: nat, va: nat, src: seq<byte>, sp: nat, used: nat)
    requires Inv(s) && Aligned(s) && Inv(t) && Aligned(t) && SameFrom(s, t, va / PGSIZE) && Left(s, t, used)
    requires Walkable(s, p, va)
    ensures Live(s, (p, va / PGSIZE)) && Live(t, (p, va / PGSIZE))
    ensures var t' := Stored(t, p, va, src, sp);
      && Inv(t') && Aligned(t') && SameFrom(s, t', (PageDown(va) + PGSIZE) / PGSIZE)
      && Left(s, t', used + Count(Spends(s, p, va, sp)))
  {
    hide Inv, View, Backed, Stored, Aligned, Private1, Safe, Spends, Live, SameEntry;
    SafeNow(s, t, p, va, src, sp, used);
    StoredExact(t, p, va, src, sp);
    NextPage(va);
    var t' := Stored(t, p, va, src, sp);
    forall j: Key | j.1 >= va / PGSIZE + 1 ensures SameEntry(s, t', j) {
      assert SameEntry(s, t, j);
      StoredSame(t, p, va, src, sp, j);
      SameEntryTrans(s, t, t', j);
    }
    StoredSame(t, p, va, src, sp, (p, va / PGSIZE + 1));
  }

  /** copyout leaves every process with the memory plain memory would give it if and only if, in the state before
      the call, every destination page is alone in its process, holds the bytes already, or can be split: it is
      copy-on-write at an accepted address and a page is still free after the splits before it. */
  lemma CopyoutExact(s: Vm, p: nat, va: nat, src: seq<byte>, sp: nat)
    requires Inv(s) && Aligned(s)
    ensures Inv(Copyout(s, p, va, src, sp).0)
    ensures View(Copyout(s, p, va, src, sp).0) == Put(View(s), Users(s), p, va, src).0
       <==> SafeFrom(s, p, va, src, sp, 0)
  {
    hide Inv, View, Backed, Copyout, Put, Privately, SafeFrom, Aligned, SameEntry;
    CopyoutPasses(s, p, va, src, sp);
    forall j: Key | j.1 >= va / PGSIZE ensures SameEntry(s, s, j) {
      SameSelf(s, j);
    }
    SafeIsPrivate(s, s, p, va, src, sp, 0);
  }

  // ---------- when the stores are private

  /** Every mapped destination page is writable, or copy-on-write at an address the handler accepts, and there
      are free pages for all of them. */
  ghost predicate Prepared(s: Vm, p: nat, va: nat, len: nat, sp: nat) {
    && |s.free| > (va + len) / PGSIZE - va / PGSIZE
    && forall x: nat | va / PGSIZE <= x <= (va + len) / PGSIZE && (p, x) in s.pt :: Ready(s, p, x, sp)
  }

  ghost predicate Ready(s: Vm, p: nat, x: nat, sp: nat)
    requires (p, x) in s.pt
  {
    s.pt[(p, x)].w || (s.pt[(p, x)].c && !Refused(x * PGSIZE, sp))
  }

  lemma StoredFrame(s: Vm, p: nat, va: nat, src: seq<byte>, sp: nat)
    requires Inv(s) && (p, va / PGSIZE) in s.pt
    ensures Live(s, (p, va / PGSIZE))
    ensures var s' := Stored(s, p, va, src, sp);
      && |s'.free| >= |s.free| - 1
      && forall j | j in s'.pt && j.1 != va / PGSIZE :: j in s.pt && s'.pt[j] == s.pt[j]
  {
    hide Inv, View, Backed, Patch, Fill, Refused;
    MappedLive(s, (p, va / PGSIZE));
  }

  lemma {:induction false} PreparedIsPrivate(s: Vm, p: nat, va: nat, src: seq<byte>, sp: nat)
    requires Inv(s) && Aligned(s) && Prepared(s, p, va, |src|, sp)
    ensures Privately(s, p, va, src, sp)
    decreases |src|
  {
    hide Inv, View, Backed, Stored, Aligned, Patch, Refused, Names;
    if src != [] && Walkable(s, p, va) {
      var k := (p, va / PGSIZE);
      var n := Chunk(va, |src|);
      StoredExact(s, p, va, src, sp);
      StoredFrame(s, p, va, src, sp);
      NextPage(va);
      ReadyPrivate(s, p, va, src, sp);
      if n < |src| {
        assert PageDown(va) + PGSIZE + |src[n..]| == va + |src|;
        PreparedIsPrivate(Stored(s, p, va, src, sp), p, PageDown(va) + PGSIZE, src[n..], sp);
      }
    }
  }

  /** A call prepared for reaches only its own process. */
  lemma CopyoutPrepared(s: Vm, p: nat, va: nat, src: seq<byte>, sp: nat)
    requires Inv(s) && Aligned(s) && Prepared(s, p, va, |src|, sp)
    ensures Inv(Copyout(s, p, va, src, sp).0)
    ensures View(Copyout(s, p, va, src, sp).0) == Put(View(s), Users(s), p, va, src).0
  {
    hide Inv, View, Backed, Copyout, Put, Privately, Prepared, Aligned;
    PreparedIsPrivate(s, p, va, src, sp);
    CopyoutPasses(s, p, va, src, sp);
  }

  lemma ReadyPrivate(s: Vm, p: nat, va: nat, src: seq<byte>, sp: nat)
    requires Inv(s) && (p, va / PGSIZE) in s.pt && Ready(s, p, va / PGSIZE, sp) && s.free != []
    ensures Live(s, (p, va / PGSIZE)) && Private1(s, p, va, src, sp)
  {
    hide Inv, View, Backed, Patch, Refused, Names;
    var k := (p, va / PGSIZE);
    MappedLive(s, k);
    assert PageDown(va) == va / PGSIZE * PGSIZE;
    if s.pt[k].w {
      Alone(s, k);
    }
  }

  /** What a successful call on plain memory stores, byte by byte. */
  lemma {:induction false} PutBytes(v: map<Key, Cell>, user: set<Key>, p: nat, va: nat, src: seq<byte>, x: nat, o: nat)
    requires Put(v, user, p, va, src).1 && (p, x) in v && o < PGSIZE
    ensures (p, x) in Put(v, user, p, va, src).0
    ensures var a := x * PGSIZE + o;
      Put(v, user, p, va, src).0[(p, x)].page[o] == if va <= a < va + |src| then src[a - va] else v[(p, x)].page[o]
    decreases |src|
  {
    if src != [] {
      var k := (p, va / PGSIZE);
      var n := Chunk(va, |src|);
      var v' := v[k := Patched(v[k], va, src)];
      NextPage(va);
      if x <= va / PGSIZE {
        PutOthers(v', user, p, PageDown(va) + PGSIZE, src[n..], (p, x));
      } else {
        PutBytes(v', user, p, PageDown(va) + PGSIZE, src[n..], x, o);
      }
    }
  }

  // ---------- runs

  lemma StepAligned(s: Vm, e: Event, s': Vm)
    requires Inv(s) && Aligned(s) && Next(s, e, s')
    ensures Aligned(s')
  {
    hide Inv, View, Backed, Fill, SplitPage, MapNew, Names, Unused;
    match e
    case DoSplit(k) => SplitOk(s, k); Alone(s', k); SplitAligned(s, s', k);
    case DoMap(k, f, page) => MapAligned(s, k, f, page);
    case _ =>
  }

  lemma MapAligned(s: Vm, k: Key, e: Pte, page: Page)
    requires Inv(s) && Aligned(s) && k !in s.pt && MapNew(s, k, e, page).Some?
    ensures Aligned(MapNew(s, k, e, page).value)
  {
    hide Inv, Fill;
    KallocFresh(s);
  }

  lemma {:induction false} AlignedInRuns(lo: nat, hi: nat, ts: seq<Vm>, es: seq<Event>, n: nat)
    requires Run(lo, hi, ts, es) && n <= |es|
    ensures Inv(ts[n]) && Aligned(ts[n])
  {
    hide Inv, Next, Aligned;
    if n == 0 {
      BootInv(lo, hi);
      BootAligned(lo, hi);
    } else {
      AlignedInRuns(lo, hi, ts, es, n - 1);
      StepAligned(ts[n - 1], es[n - 1], ts[n - 1 + 1]);
      CowIsEager(lo, hi, ts, es, n);
    }
  }

  lemma BootAligned(lo: nat, hi: nat)
    requires lo <= hi
    ensures Aligned(Boot(lo, hi))
  {
    hide Fill, Descending;
  }

  /** A parent with one zeroed page, just forked. */
  lemma Forked() returns (ts: seq<Vm>, es: seq<Event>)
    ensures Run(1, 10, ts, es) && |es| == 2
    ensures var s := ts[2]; var e := Pte(9, true, false, false, true, true);
      s.pt == map[(0, 0) := e, (1, 0) := e] && 9 in s.mem && s.mem[9] == Fill(0) && 9 in s.refs && s.refs[9] == 2
  {
    hide Fill;
    var s0 := Boot(1, 10);
    var e := Pte(0, true, true, false, true, false);
    assert s0.free[0] == 9;
    assert Between(1, 9, 10);
    var s1 := MapNew(s0, (0, 0), e, Fill(0)).value;
    assert s1.pt == map[(0, 0) := e.(ppn := 9)];
    var s2 := SharePage(s1, (0, 0), (1, 0));
    ts, es := [s0, s1, s2], [DoMap((0, 0), e, Fill(0)), DoShare((0, 0), 1)];
    assert Next(ts[0], es[0], ts[1]);
    assert Next(ts[1], es[1], ts[2]);
  }

  /** A run after which copyout by the parent, at an address near its stack pointer, is seen by the child. */
  lemma CopyoutReachesChild() returns (ts: seq<Vm>, es: seq<Event>)
    ensures Run(1, 10, ts, es) && |es| == 2
    ensures var s' := Copyout(ts[2], 0, 0, [7], PGSIZE).0;
      && Backed(ts[2]) && Backed(s') && (1, 0) in View(ts[2]) && (1, 0) in View(s')
      && View(ts[2])[(1, 0)].page[0] == 0 && View(s')[(1, 0)].page[0] == 7
  {
    hide SplitPage, Next, Boot;
    ts, es := Forked();
    var s := ts[2];
    assert NearStack(0, PGSIZE);
    assert HandleFault(s, 0, 0, PGSIZE) == (s, -2);
    assert PageDown(0) == 0;
    assert Faulted(s, 0, 0, PGSIZE) == s;
    assert [7][..Chunk(0, 1)] == [7];
    var s1 := Stored(s, 0, 0, [7], PGSIZE);
    assert s1 == WritePage(s, (0, 0), Patch(Fill(0), 0, [7]));
    assert Copyout(s, 0, 0, [7], PGSIZE) == Copyout(s1, 0, PGSIZE, [7][Chunk(0, 1)..], PGSIZE);
    assert [7][Chunk(0, 1)..] == [];
  }
}
