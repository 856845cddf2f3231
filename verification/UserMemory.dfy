/** The kernel's memory management as it runs: the free list linked through the pages, the count array,
    and the loops over user pages, each proved against Cow's functions on values. */
module UserMemory {
  import opened Options
  import opened Blocks
  import opened Cow
  import opened CowSteps
  import opened CowCalls
  import opened CowRuns
  import opened CowCopyout

  /** The counts of the managed pages. */
  ghost function Refs(lo: nat, hi: nat, a: seq<int>): map<nat, nat>
    requires |a| == hi && forall x | 0 <= x < |a| :: a[x] >= 0
  {
    map x: nat | lo <= x < hi && Between(lo, x, hi) :: a[x] as nat
  }

  lemma RefsUpdate(lo: nat, hi: nat, a: seq<int>, x: nat, c: nat)
    requires |a| == hi && (forall x | 0 <= x < |a| :: a[x] >= 0) && lo <= x < hi
    ensures Refs(lo, hi, a[x := c]) == Refs(lo, hi, a)[x := c]
  {
    assert Between(lo, x, hi);
  }

  /** Following next from h visits exactly xs and ends at the null pointer. */
  ghost predicate Chain(h: nat, next: map<nat, nat>, xs: seq<nat>)
    decreases xs
  {
    if xs == [] then h == 0 else h == xs[0] && h != 0 && h in next && Chain(next[h], next, xs[1..])
  }

  lemma {:induction false} ChainUpdate(h: nat, next: map<nat, nat>, xs: seq<nat>, x: nat, y: nat)
    requires Chain(h, next, xs) && x !in xs
    ensures Chain(h, next[x := y], xs)
    decreases xs
  {
    if xs != [] {
      ChainUpdate(next[h], next, xs[1..], x, y);
    }
  }

  class Kernel {
    const lo: nat
    const hi: nat                      // PHYSTOP >> 12
    var mem: map<nat, Page>
    const pageRefCount: array<int>
    var freelist: nat                  // a page number; 0 is the null pointer
    var next: map<nat, nat>            // r->next of each page on the list
    var pt: map<Key, Pte>
    ghost var free: seq<nat>
    ghost var kern: set<nat>
    ghost var leaked: multiset<nat>

    ghost predicate Valid()
      reads this, pageRefCount
    {
      && 0 < lo <= hi && pageRefCount.Length == hi
      && (forall x | 0 <= x < hi :: pageRefCount[x] >= 0)
      && Chain(freelist, next, free)
    }

    ghost function Model(): Vm
      requires Valid()
      reads this, pageRefCount
    {
      Vm(lo, hi, mem, Refs(lo, hi, pageRefCount[..]), free, pt, kern, leaked)
    }

    method DecrementAndGetPageReference(x: nat) returns (r: int)
      requires Valid() && lo <= x < hi && pageRefCount[x] > 0
      modifies pageRefCount
      ensures Valid() && r == old(pageRefCount[x]) - 1 && pageRefCount[..] == old(pageRefCount[..])[x := r]
      ensures Model() == old(Model()).(refs := old(Model().refs)[x := r])
    {
      var c := pageRefCount[x];
      RefsUpdate(lo, hi, pageRefCount[..], x, c - 1);
      pageRefCount[x] := c - 1;
      assert pageRefCount[..] == old(pageRefCount[..])[x := c - 1];
      return c - 1;
    }

    method IncrementAndGetPageReference(x: nat) returns (r: int)
      requires Valid() && lo <= x < hi
      modifies pageRefCount
      ensures Valid() && r == old(pageRefCount[x]) + 1 && pageRefCount[..] == old(pageRefCount[..])[x := r]
      ensures Model() == old(Model()).(refs := old(Model().refs)[x := r])
    {
      var c := pageRefCount[x];
      RefsUpdate(lo, hi, pageRefCount[..], x, c + 1);
      pageRefCount[x] := c + 1;
      assert pageRefCount[..] == old(pageRefCount[..])[x := c + 1];
      return c + 1;
    }

    method Kfree(x: nat)
      requires Valid() && lo <= x < hi && pageRefCount[x] > 0 && x !in free
      modifies this, pageRefCount
      ensures Valid() && x in old(Model().refs) && old(Model().refs)[x] > 0
      ensures Model() == Cow.Kfree(old(Model()), x)
      ensures pageRefCount[..] == old(pageRefCount[..])[x := old(pageRefCount[x]) - 1]
    {
      assert Between(lo, x, hi);
      var refCount := DecrementAndGetPageReference(x);
      if refCount > 0 {
        return;
      }
      mem := mem[x := Fill(1)];
      ChainUpdate(freelist, next, free, x, freelist);
      next := next[x := freelist];
      freelist := x;
      free := [x] + free;
    }

    /** The page handed out, or 0 when there is none. */
    method Kalloc() returns (x: nat)
      requires Valid() && forall y | y in free :: lo <= y < hi
      modifies this, pageRefCount
      ensures Valid() && kern == old(kern) && leaked == old(leaked) && pt == old(pt)
      ensures x == 0 ==> Cow.Kalloc(old(Model())).None? && Model() == old(Model())
      ensures x != 0 ==> Cow.Kalloc(old(Model())) == Some((Model(), x))
    {
      x := freelist;
      if x != 0 {
        assert x == free[0] && free[0] in free;
        assert Between(lo, x, hi);
        freelist := next[x];
        free := free[1..];
        var c := IncrementAndGetPageReference(x);
        mem := mem[x := Fill(5)];
      }
    }

    /** kinit: the counts cleared, then every page from the end of the kernel to PHYSTOP counted once and freed. */
    constructor (lo: nat, hi: nat, ram: map<nat, Page>)
      requires 0 < lo <= hi && forall x: nat :: x in ram <==> lo <= x < hi
      ensures Valid() && fresh(pageRefCount) && this.lo == lo && this.hi == hi && Model() == Boot(lo, hi)
    {
      this.lo, this.hi, mem, freelist, next, pt := lo, hi, ram, 0, map[], map[];
      free, kern, leaked := [], {}, multiset{};
      pageRefCount := new int[hi](_ => 0);
      new;
      Freerange(ram);
    }

    method Freerange(ghost ram: map<nat, Page>)
      requires Valid() && forall x: nat :: x in ram <==> lo <= x < hi
      requires mem == ram && free == [] && pt == map[] && kern == {} && leaked == multiset{}
      requires forall x | 0 <= x < hi :: pageRefCount[x] == 0
      modifies this, pageRefCount
      ensures Valid() && Model() == Boot(lo, hi)
    {
      var p := lo;
      while p + 1 <= hi
        invariant lo <= p <= hi && Valid()
        invariant free == Descending(lo, p) && pt == map[] && kern == {} && leaked == multiset{}
        invariant forall x | 0 <= x < hi :: pageRefCount[x] == 0
        invariant Swept(p)
      {
        Unlisted(lo, p);
        FreeOne(p);
        p := p + 1;
      }
      assert mem == Boot(lo, hi).mem;
      assert Refs(lo, hi, pageRefCount[..]) == Boot(lo, hi).refs;
    }

    /** The pages below p hold the junk that kfree leaves. */
    ghost predicate Swept(p: nat)
      reads this
    {
      && (forall x: nat :: x in mem <==> lo <= x < hi)
      && (forall x: nat | lo <= x < p && x in mem :: mem[x] == Fill(1))
    }

    method FreeOne(p: nat)
      requires Valid() && lo <= p < hi && p !in free && pageRefCount[p] == 0 && Swept(p)
      requires forall x | 0 <= x < hi :: pageRefCount[x] == 0
      modifies this, pageRefCount
      ensures Valid() && free == [p] + old(free) && pt == old(pt) && kern == old(kern) && leaked == old(leaked)
      ensures forall x | 0 <= x < hi :: pageRefCount[x] == 0
      ensures Swept(p + 1)
    {
      var c := IncrementAndGetPageReference(p);
      assert pageRefCount[p] == 1 by { assert pageRefCount[..][p] == 1; }
      Kfree(p);
      assert pageRefCount[..] == old(pageRefCount[..]);
      forall x | 0 <= x < hi ensures pageRefCount[x] == 0 {
        assert pageRefCount[..][x] == old(pageRefCount[..])[x];
      }
    }

    ghost predicate Good()
      reads this, pageRefCount
    {
      Valid() && Inv(Model())
    }

    /** kfree of a page some entry or the kernel holds. */
    method Drop(x: nat)
      requires Good() && x in Model().refs && Model().refs[x] > 0
      modifies this, pageRefCount
      ensures Valid() && Model() == Cow.Kfree(old(Model()), x)
    {
      hide Chain, Cow.Kfree;
      InUse(Model(), x);
      assert Between(lo, x, hi);
      Kfree(x);
    }

    /** kalloc in a consistent kernel. */
    method Take() returns (x: nat)
      requires Good()
      modifies this, pageRefCount
      ensures Valid() && kern == old(kern) && leaked == old(leaked) && pt == old(pt)
      ensures x == 0 ==> Cow.Kalloc(old(Model())).None? && Model() == old(Model())
      ensures x != 0 ==> Cow.Kalloc(old(Model())) == Some((Model(), x))
    {
      hide Chain, Cow.Kalloc;
      FreeManaged(Model());
      x := Kalloc();
    }

    /** walk with alloc set: take the table pages a mapping needs; they stay even if there are not enough. */
    method MapTables(need: nat) returns (ok: bool)
      requires Good()
      modifies this, pageRefCount
      ensures Good() && (Model(), ok) == Tables(old(Model()), need)
    {
      hide Inv, Chain;
      var n := need;
      while n > 0
        invariant Good() && Tables(Model(), n) == Tables(old(Model()), need)
      {
        var y := TableAlloc();
        if y == 0 {
          return false;
        }
        n := n - 1;
      }
      return true;
    }

    method TableAlloc() returns (y: nat)
      requires Good()
      modifies this, pageRefCount
      ensures Good()
      ensures y == 0 ==> KernAlloc(old(Model())).None? && Model() == old(Model())
      ensures y != 0 ==> KernAlloc(old(Model())) == Some((Model(), y))
    {
      hide Inv, Chain, Cow.Kalloc;
      ghost var s := Model();
      y := Take();
      if y != 0 {
        kern := kern + {y};
        KernAllocOk(s);
      }
    }

    /** The body of uvmunmap's loop with do_free. */
    method UnmapOne(p: nat, v: nat)
      requires Good() && (p, v) in pt
      modifies this, pageRefCount
      ensures Good() && Live(old(Model()), (p, v)) && Model() == Release(old(Model()), (p, v))
    {
      hide Inv, Chain, Cow.Kfree;
      ghost var s := Model();
      ReleaseOk(s, (p, v));
      var x := pt[(p, v)].ppn;
      Drop(x);
      KfreePt(s, x);
      pt := pt - {(p, v)};
    }

    /** uvmunmap with do_free over npages pages from page v; every one must be mapped. */
    method Uvmunmap(p: nat, v: nat, npages: nat)
      requires Good() && Mapped(Model(), p, v, npages)
      modifies this, pageRefCount
      ensures Good() && Model() == Unmap(old(Model()), p, v, npages)
      ensures View(Model()) == View(old(Model())) - Keys(p, v, npages)
    {
      hide Inv, Chain, View, Backed, Release;
      UnmapOk(Model(), p, v, npages);
      var a := v;
      while a < v + npages
        invariant v <= a <= v + npages && Good() && Mapped(Model(), p, a, v + npages - a)
        invariant Unmap(Model(), p, a, v + npages - a) == Unmap(old(Model()), p, v, npages)
      {
        ghost var s := Model();
        UnmapOne(p, a);
        ReleaseFrame(s, (p, a));
        a := a + 1;
      }
    }

    /** handle_page_fault for process p, whose saved stack pointer is sp. */
    method HandlePageFault(p: nat, va: nat, sp: nat) returns (r: int)
      requires Good()
      modifies this, pageRefCount
      ensures Good() && LiveIfMapped(old(Model()), (p, va / PGSIZE))
      ensures (Model(), r) == HandleFault(old(Model()), p, va, sp)
      ensures View(Model()) == View(old(Model()))
    {
      hide Inv, Chain, View, Backed, SplitPage, NearStack;
      ghost var s := Model();
      FaultOk(s, p, va, sp);
      if va >= MAXVA || NearStack(va, sp) {
        return -2;
      }
      var k := (p, va / PGSIZE);
      if k !in pt {
        return -1;
      }
      if pt[k].c {
        var ok := Split(k);
        if !ok {
          return -1;
        }
      }
      return 0;
    }

    /** The copy-on-write branch of handle_page_fault. */
    method Split(k: Key) returns (ok: bool)
      requires Good() && k in pt
      modifies this, pageRefCount
      ensures Good() && Live(old(Model()), k)
      ensures SplitPage(old(Model()), k) == if ok then Some(Model()) else None
      ensures !ok ==> Model() == old(Model())
    {
      hide Inv, Chain, View, Backed, Fill;
      ghost var s := Model();
      SplitOk(s, k);
      MappedLive(s, k);
      var x := pt[k].ppn;
      var y := Take();
      if y == 0 {
        return false;
      }
      SplitHalf(s, k, Model(), y);
      assert Between(lo, x, hi);
      mem := mem[y := mem[x]];
      pt := pt[k := Private(pt[k], y)];
      assert Refs(lo, hi, pageRefCount[..])[x] == pageRefCount[x];
      Kfree(x);
      return true;
    }

    /** The first half of a pass of uvmcopy: count the page again and mark the parent's entry. */
    method CountAgain(k: Key)
      requires Good() && k in pt
      modifies this, pageRefCount
      ensures Good() && Live(old(Model()), k) && Model() == ShareFailed(old(Model()), k)
    {
      hide Inv, Chain;
      ghost var s := Model();
      MappedLive(s, k);
      ShareFailedOk(s, k);
      var e := pt[k];
      var c := IncrementAndGetPageReference(e.ppn);
      if e.w {
        pt := pt[k := Shared(e)];
      }
      assert pt == s.pt[k := Shared(e)];
      leaked := leaked + multiset{e.ppn};
    }

    /** mappages once the tables are there: the entry now stands for the reference taken. */
    method Enter(k: Key, e: Pte)
      requires Valid()
      modifies this
      ensures Valid() && Model() == Name(old(Model()), k, e)
    {
      hide Chain;
      pt := pt[k := e];
      leaked := leaked - multiset{e.ppn};
    }

    /** The body of uvmcopy's loop. */
    method CopyOne(p: nat, q: nat, v: nat, need: nat) returns (ok: bool)
      requires Good() && (p, v) in pt && (q, v) !in pt
      modifies this, pageRefCount
      ensures Good() && Live(old(Model()), (p, v))
      ensures (Model(), ok) == CopyPass(old(Model()), (p, v), (q, v), need)
    {
      hide Inv, Chain, Valid, Tables, ShareFailed, Name, Shared, View, Backed;
      ghost var s := Model();
      var flags := SharedFlags((p, v));
      CopyPassOk(s, (p, v), (q, v), need);
      CountAgain((p, v));
      ok := MapTables(need);
      if ok {
        Enter((q, v), flags);
      }
    }

    /** The flags the child's entry gets, read before the parent's is changed. */
    method SharedFlags(k: Key) returns (e: Pte)
      requires Valid() && k in pt
      ensures e == Shared(Model().pt[k]) && k in Model().pt
    {
      e := Shared(pt[k]);
    }

    /** uvmcopy: the child q reads what an eager copy would give it, or nothing anyone reads has changed. */
    method Uvmcopy(p: nat, q: nat, sz: nat, needs: seq<nat>) returns (r: int)
      requires Good() && p != q && |needs| == Pages(sz)
      requires Mapped(Model(), p, 0, Pages(sz)) && Vacant(Model(), q, 0, Pages(sz))
      modifies this, pageRefCount
      ensures Good() && (r == 0 || r == -1)
      ensures (Model(), r == 0) == CopyFrom(old(Model()), p, q, 0, Pages(sz), needs)
      ensures forall x: nat | x < Pages(sz) :: (p, x) in View(old(Model()))
      ensures r == 0 ==> View(Model()) == Duplicate(View(old(Model())), p, q, 0, Pages(sz))
      ensures r != 0 ==> View(Model()) == View(old(Model()))
    {
      hide Inv, Chain, CopyPass, View, Backed, Duplicate, LeftCounted;
      ghost var n := Pages(sz);
      UvmcopyIsEager(Model(), p, q, n, needs);
      var i, v := 0, 0;
      while i < sz
        invariant i == v * PGSIZE && v <= n && Good()
        invariant Mapped(Model(), p, 0, n) && Mapped(Model(), q, 0, v) && Vacant(Model(), q, v, n - v)
        invariant CopyFrom(Model(), p, q, v, n, needs) == CopyFrom(old(Model()), p, q, 0, n, needs)
        decreases n - v
      {
        ghost var s := Model();
        MappedLive(s, (p, v));
        CopyPassOk(s, (p, v), (q, v), needs[v]);
        var ok := CopyOne(p, q, v, needs[v]);
        if !ok {
          assert Mapped(Model(), q, 0, v);
          Uvmunmap(q, 0, v);
          return -1;
        }
        i, v := i + PGSIZE, v + 1;
      }
      return 0;
    }

    /** A pass of uvmalloc's loop. */
    method GrowOne(p: nat, v: nat, e: Pte, need: nat) returns (ok: bool)
      requires Good() && (p, v) !in pt && !(e.w && e.c)
      modifies this, pageRefCount
      ensures Good() && (Model(), ok) == GrowPass(old(Model()), (p, v), e, need)
    {
      hide Inv, Chain, Valid, Tables, Fill, DropRef, Fresh, SetMem, Name, View, Backed;
      ghost var s := Model();
      GrowPassOk(s, (p, v), e, need);
      var y := FreshZero();
      if y == 0 {
        return false;
      }
      ok := MapTables(need);
      ZeroKept(s, y, need);
      if ok {
        Enter((p, v), e.(ppn := y));
      } else {
        DropFresh(y);
      }
    }

    /** kalloc and memset. */
    method FreshZero() returns (y: nat)
      requires Good()
      modifies this, pageRefCount
      ensures Good()
      ensures y == 0 ==> Fresh(old(Model())).None? && Model() == old(Model())
      ensures y != 0 ==> Fresh(old(Model())).Some? && Fresh(old(Model())).value.1 == y
      ensures y != 0 ==> Model() == SetMem(Fresh(old(Model())).value.0, y, Fill(0))
    {
      hide Inv, Chain, Fill, Cow.Kalloc, Unused, View, Backed;
      ghost var s := Model();
      y := Take();
      if y != 0 {
        leaked := leaked + multiset{y};
        mem := mem[y := Fill(0)];
        FreshOk(s);
        SetMemKeeps(Fresh(s).value.0, y, Fill(0));
      }
    }

    method DropFresh(y: nat)
      requires Good() && leaked[y] > 0
      modifies this, pageRefCount
      ensures Good() && y in old(Model()).refs && old(Model()).refs[y] > 0 && Model() == DropRef(old(Model()), y)
    {
      hide Inv, Chain, Fill, Cow.Kfree, View;
      ghost var s := Model();
      DropRefOk(s, y);
      Drop(y);
      leaked := s.leaked - multiset{y};
    }

    /** uvmalloc: returns the new size, or, exactly when there are too few pages, 0 with nothing anyone reads
        changed. */
    method Uvmalloc(p: nat, oldsz: nat, newsz: nat, e: Pte, needs: seq<nat>) returns (r: nat)
      requires Good() && !(e.w && e.c) && |needs| == Pages(newsz)
      requires Pages(oldsz) <= Pages(newsz) ==> Vacant(Model(), p, Pages(oldsz), Pages(newsz) - Pages(oldsz))
      modifies this, pageRefCount
      ensures Good() && leaked == old(leaked)
      ensures newsz < oldsz ==> r == oldsz && Model() == old(Model())
      ensures newsz >= oldsz ==> (r == newsz || r == 0) && Pages(oldsz) <= Pages(newsz)
      ensures newsz >= oldsz && r == newsz ==>
        View(Model()) == Zeroed(View(old(Model())), p, Pages(oldsz), Pages(newsz) - Pages(oldsz), RightsOf(e))
      ensures newsz >= oldsz && r != newsz ==> View(Model()) == View(old(Model()))
      ensures newsz >= oldsz ==>
        (Model(), r == newsz) == GrowFrom(old(Model()), p, Pages(oldsz), Pages(oldsz), Pages(newsz), e, needs)
      ensures newsz >= oldsz ==> (r == newsz <==> Wanted(needs, Pages(oldsz), Pages(newsz)) <= |old(Model()).free|)
    {
      hide Inv, Chain, Valid, View, Backed, GrowFrom, Zeroed, Vacant, Wanted;
      if newsz < oldsz {
        return oldsz;
      }
      UvmallocAllOrNothing(Model(), p, Pages(oldsz), Pages(newsz), e, needs);
      var ok := GrowLoop(p, Pages(oldsz), newsz, e, needs);
      return if ok then newsz else 0;
    }

    method GrowLoop(p: nat, v: nat, newsz: nat, e: Pte, needs: seq<nat>) returns (ok: bool)
      requires Good() && !(e.w && e.c) && v <= Pages(newsz) == |needs| && Vacant(Model(), p, v, Pages(newsz) - v)
      modifies this, pageRefCount
      ensures Good() && (Model(), ok) == GrowFrom(old(Model()), p, v, v, Pages(newsz), e, needs)
      ensures !ok ==> newsz > 0
    {
      hide Inv, Chain, Valid, View, Backed, GrowPass;
      ghost var n := Pages(newsz);
      var i := v;
      while i * PGSIZE < newsz
        invariant v <= i <= n && Good()
        invariant Mapped(Model(), p, v, i - v) && Vacant(Model(), p, i, n - i)
        invariant GrowFrom(Model(), p, v, i, n, e, needs) == GrowFrom(old(Model()), p, v, v, n, e, needs)
        decreases n - i
      {
        GrowPassOk(Model(), (p, i), e, needs[i]);
        ok := GrowOne(p, i, e, needs[i]);
        if !ok {
          Uvmunmap(p, v, i - v);
          return false;
        }
        i := i + 1;
      }
      return true;
    }

    /** uvmdealloc: the pages between the two sizes go; a size that does not shrink changes nothing. */
    method Uvmdealloc(p: nat, oldsz: nat, newsz: nat) returns (r: nat)
      requires Good()
      requires Pages(newsz) <= Pages(oldsz) ==> Mapped(Model(), p, Pages(newsz), Pages(oldsz) - Pages(newsz))
      modifies this, pageRefCount
      ensures Good()
      ensures newsz >= oldsz ==> r == oldsz && Model() == old(Model())
      ensures newsz < oldsz ==> r == newsz && Pages(newsz) <= Pages(oldsz)
      ensures newsz < oldsz ==> View(Model()) == View(old(Model())) - Keys(p, Pages(newsz), Pages(oldsz) - Pages(newsz))
    {
      hide Inv, Chain, View, Backed;
      if newsz >= oldsz {
        return oldsz;
      }
      if Pages(newsz) < Pages(oldsz) {
        Uvmunmap(p, Pages(newsz), Pages(oldsz) - Pages(newsz));
      } else {
        NoKeys(Model(), p, Pages(newsz));
      }
      return newsz;
    }

    /** copyout, page by page; the fault handler's answer is not looked at. */
    method Copyout(p: nat, va: nat, src: seq<byte>, sp: nat) returns (r: int)
      requires Good()
      modifies this, pageRefCount
      ensures Good() && (r == 0 || r == -1)
      ensures (Model(), r == 0) == CowCopyout.Copyout(old(Model()), p, va, src, sp)
    {
      hide Inv, Chain, View, Backed, Aligned, Stored, Live;
      var dstva: nat, done: nat := va, 0;
      while done < |src|
        invariant done <= |src| && Good()
        invariant CowCopyout.Copyout(Model(), p, dstva, src[done..], sp) ==
          CowCopyout.Copyout(old(Model()), p, va, src, sp)
      {
        if dstva >= MAXVA || (p, dstva / PGSIZE) !in pt || !pt[(p, dstva / PGSIZE)].u {
          return -1;
        }
        ghost var s := Model();
        StoredExact(s, p, dstva, src[done..], sp);
        StoreChunk(p, dstva, src[done..], sp);
        var n := Chunk(dstva, |src| - done);
        assert src[done..][n..] == src[done + n..];
        done := done + n;
        dstva := PageDown(dstva) + PGSIZE;
      }
      assert src[done..] == [];
      return 0;
    }

    /** The body of copyout's loop. */
    method StoreChunk(p: nat, va: nat, src: seq<byte>, sp: nat)
      requires Good() && (p, va / PGSIZE) in pt
      modifies this, pageRefCount
      ensures Good() && LiveIfMapped(old(Model()), (p, va / PGSIZE)) && Model() == Stored(old(Model()), p, va, src, sp)
    {
      hide Inv, Chain, View, Backed, Aligned, Live, HandleFault, Names, Users, Refused, Private1;
      var k := (p, va / PGSIZE);
      StoredExact(Model(), p, va, src, sp);
      FaultedOk(Model(), p, va, sp);
      if pt[k].c {
        assert PageDown(va) / PGSIZE == va / PGSIZE;
        var r := HandlePageFault(p, PageDown(va), sp);
      }
      InView(Model());
      mem := mem[pt[k].ppn := Patch(mem[pt[k].ppn], va % PGSIZE, src[..Chunk(va, |src|)])];
    }
  }

  /** The pages that sz bytes take. */
  function Pages(sz: nat): nat {
    (sz + PGSIZE - 1) / PGSIZE
  }

  lemma NoKeys(s: Vm, p: nat, v: nat)
    requires Inv(s)
    ensures Backed(s) && View(s) - Keys(p, v, 0) == View(s)
  {
    hide Domains, FreeOk, CountsOk, KernOk, PtesOk, WritersOk;
    assert Keys(p, v, 0) == {};
  }

  /** The fresh page of uvmalloc is still its own when the table pages could not be had. */
  lemma ZeroKept(s: Vm, y: nat, need: nat)
    requires Inv(s) && Fresh(s).Some? && Fresh(s).value.1 == y
    ensures var s2 := Tables(SetMem(Fresh(s).value.0, y, Fill(0)), need).0;
      Inv(s2) && s2.leaked[y] > 0 && y in s2.refs && s2.refs[y] > 0
  {
    hide Inv, Fill, Unused, Tables, Fresh, View, Backed;
    FreshOk(s);
    var s1 := SetMem(Fresh(s).value.0, y, Fill(0));
    SetMemKeeps(Fresh(s).value.0, y, Fill(0));
    TablesOk(s1, need);
    LeakedCounts(Tables(s1, need).0, y);
  }

  /** Between the two halves of a split the old page is still counted and not on the free list. */
  lemma SplitHalf(s: Vm, k: Key, s1: Vm, y: nat)
    requires Inv(s) && k in s.pt && Cow.Kalloc(s) == Some((s1, y))
    ensures var x := s.pt[k].ppn;
      Managed(s, x) && x != y && x !in s1.free && x in s1.mem && x in s1.refs && s1.refs[x] > 0
  {
    hide Inv, Fill, Unused;
    MappedLive(s, k);
    KallocFresh(s);
    UnusedElsewhere(s, y, k);
    InUse(s, s.pt[k].ppn);
  }

  lemma KfreePt(s: Vm, x: nat)
    requires x in s.refs && s.refs[x] > 0
    ensures Cow.Kfree(s, x).pt == s.pt
  {
  }

  lemma InUse(s: Vm, x: nat)
    requires Inv(s) && x in s.refs && s.refs[x] > 0
    ensures Managed(s, x) && x !in s.free
  {
    hide CountsOk, KernOk, PtesOk, WritersOk;
    assert multiset(s.free)[x] == 0;
  }

  lemma FreeManaged(s: Vm)
    requires Inv(s)
    ensures forall y | y in s.free :: s.lo <= y < s.hi
  {
    hide CountsOk, KernOk, PtesOk, WritersOk;
    forall y | y in s.free ensures s.lo <= y < s.hi {
      assert y in multiset(s.free);
    }
  }

  lemma Unlisted(lo: nat, p: nat)
    requires lo <= p
    ensures p !in Descending(lo, p)
  {
    DescendingOnce(lo, p, p);
  }
}
