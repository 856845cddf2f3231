/** The cache as a view of the disk for one process at a time: `fs` is the content of every block
    as the kernel sees it.  Only pinned blocks may differ from the disk, and they stay cached. */
module CacheView {
  import opened Options
  import opened Blocks
  import opened WriteAheadLog
  import opened Bio
  import opened Sets

  ghost predicate Caches(s: Slot, dev: uint, x: uint) {
    s.valid && s.dev == dev && s.blockno == x
  }

  /** Process pid holds exactly the buffers in H, the blocks in P are pinned once each, nobody else
      references a buffer, every valid buffer shows fs, and the disk shows fs except for P. */
  ghost predicate Settled(c: Cache, disk: Disk, fs: Disk, pid: nat, dev: uint, P: set<uint>, H: set<nat>) {
    && CacheInv(c) && dev != 0 && |fs| == |disk|
    && (forall i | 0 <= i < NBUF :: SlotSettled(c.slots[i], fs, pid, dev, P, i in H))
    && (forall x | x in P :: x < |disk| && exists i :: 0 <= i < NBUF && Caches(c.slots[i], dev, x))
    && (forall x: uint | x < |disk| && x !in P :: disk[x] == fs[x])
  }

  ghost predicate SlotSettled(s: Slot, fs: Disk, pid: nat, dev: uint, P: set<uint>, held: bool) {
    && s.refcnt == Count(s.valid && s.blockno in P) + Count(held)
    && s.holder == (if held then Some(pid) else None)
    && (held ==> s.valid)
    && (s.valid ==> s.dev == dev && s.blockno < |fs| && s.data == fs[s.blockno])
  }

  lemma HeldSlot(c: Cache, disk: Disk, fs: Disk, pid: nat, dev: uint, P: set<uint>, H: set<nat>, i: nat)
    requires Settled(c, disk, fs, pid, dev, P, H) && i in H && i < NBUF
    ensures |fs| == |disk| && |c.slots| == NBUF && c.slots[i].blockno < |fs|
    ensures c.slots[i].data == fs[c.slots[i].blockno]
  {
    assert SlotSettled(c.slots[i], fs, pid, dev, P, true);
  }

  /** bread touches one buffer, which then caches the block for pid. */
  lemma ReadFrame(c: Cache, disk: Disk, pid: nat, dev: uint, x: uint)
    requires Wf(c) && x < |disk| && Read(c, disk, pid, dev, x).Some?
    ensures var (c', i) := Read(c, disk, pid, dev, x).value;
      && i < NBUF && Wf(c') && Matches(c'.slots[i], dev, x)
      && (forall j | 0 <= j < NBUF && j != i :: c'.slots[j] == c.slots[j])
      && (Matches(c.slots[i], dev, x)
          || (c.slots[i].refcnt == 0 && forall j | 0 <= j < NBUF :: !Matches(c.slots[j], dev, x)))
  {
    if Lookup(c, dev, x).None? {
      forall j | 0 <= j < NBUF ensures !Matches(c.slots[j], dev, x) { Uncached(c, dev, x, j); }
    }
    hide Nodes, Covers, Pos;
  }

  lemma Uncached(c: Cache, dev: uint, x: uint, j: nat)
    requires Wf(c) && Lookup(c, dev, x).None? && j < NBUF
    ensures !Matches(c.slots[j], dev, x)
  {
    assert c.order[Pos(c.order, j)] == j;
  }

  /** bread returns the block as the kernel sees it. */
  lemma ReadSettled(c: Cache, disk: Disk, fs: Disk, pid: nat, dev: uint, P: set<uint>, H: set<nat>, x: uint)
    requires Settled(c, disk, fs, pid, dev, P, H) && x < |disk|
    requires forall i | i in H && i < NBUF :: c.slots[i].blockno != x
    requires Read(c, disk, pid, dev, x).Some?
    ensures var (c', i) := Read(c, disk, pid, dev, x).value;
      && i < NBUF && i !in H && Settled(c', disk, fs, pid, dev, P, H + {i})
      && Caches(c'.slots[i], dev, x) && c'.slots[i].data == fs[x]
      && forall j | 0 <= j < NBUF && j != i :: c'.slots[j] == c.slots[j]
  {
    var (c', i) := Read(c, disk, pid, dev, x).value;
    ReadKeepsInv(c, disk, pid, dev, x);
    ReadFrame(c, disk, pid, dev, x);
    assert SlotSettled(c.slots[i], fs, pid, dev, P, i in H);
    assert !Matches(c.slots[i], dev, x) ==> x !in P;
    assert SlotSettled(c'.slots[i], fs, pid, dev, P, true);
    forall j | 0 <= j < NBUF ensures SlotSettled(c'.slots[j], fs, pid, dev, P, j in H + {i}) {
      assert SlotSettled(c.slots[j], fs, pid, dev, P, j in H);
    }
    forall y | y in P ensures exists j :: 0 <= j < NBUF && Caches(c'.slots[j], dev, y) {
      var j :| 0 <= j < NBUF && Caches(c.slots[j], dev, y);
      assert Caches(c'.slots[j], dev, y);
    }
  }

  /** brelse. */
  lemma PutSettled(c: Cache, disk: Disk, fs: Disk, pid: nat, dev: uint, P: set<uint>, H: set<nat>, i: nat)
    requires Settled(c, disk, fs, pid, dev, P, H) && i in H && i < NBUF
    ensures c.slots[i].refcnt > 0 && c.slots[i].holder == Some(pid)
    ensures var c' := Put(Hold(c, i, None), i);
      && Settled(c', disk, fs, pid, dev, P, H - {i})
      && forall j | 0 <= j < NBUF && j != i :: c'.slots[j] == c.slots[j]
  {
    assert SlotSettled(c.slots[i], fs, pid, dev, P, true);
    var c' := Put(Hold(c, i, None), i);
    PutKeepsInv(Hold(c, i, None), i);
    forall j | 0 <= j < NBUF ensures SlotSettled(c'.slots[j], fs, pid, dev, P, j in H - {i}) {
      assert SlotSettled(c.slots[j], fs, pid, dev, P, j in H);
    }
    forall y | y in P ensures exists j :: 0 <= j < NBUF && Caches(c'.slots[j], dev, y) {
      var j :| 0 <= j < NBUF && Caches(c.slots[j], dev, y);
      assert Caches(c'.slots[j], dev, y);
    }
  }

  /** Changing a held buffer and writing it to disk changes that block alone. */
  lemma StoreSettled(c: Cache, disk: Disk, fs: Disk, pid: nat, dev: uint, P: set<uint>, H: set<nat>,
      i: nat, data: Block)
    requires Settled(c, disk, fs, pid, dev, P, H) && i in H && i < NBUF
    ensures var x := c.slots[i].blockno;
      x < |disk| && Settled(SetData(c, i, data), disk[x := data], fs[x := data], pid, dev, P, H)
  {
    assert SlotSettled(c.slots[i], fs, pid, dev, P, true);
    var x, c' := c.slots[i].blockno, SetData(c, i, data);
    forall j | 0 <= j < NBUF ensures SlotSettled(c'.slots[j], fs[x := data], pid, dev, P, j in H) {
      assert SlotSettled(c.slots[j], fs, pid, dev, P, j in H);
    }
    forall y | y in P ensures exists j :: 0 <= j < NBUF && Caches(c'.slots[j], dev, y) {
      var j :| 0 <= j < NBUF && Caches(c.slots[j], dev, y);
      assert Caches(c'.slots[j], dev, y);
    }
  }

  /** bunpin of a held buffer whose content is on the disk. */
  lemma UnpinSettled(c: Cache, disk: Disk, fs: Disk, pid: nat, dev: uint, P: set<uint>, H: set<nat>, i: nat)
    requires Settled(c, disk, fs, pid, dev, P, H) && i in H && i < NBUF && c.slots[i].blockno in P
    requires disk[c.slots[i].blockno] == fs[c.slots[i].blockno]
    ensures c.slots[i].refcnt == 2 && c.slots[i].holder == Some(pid)
    ensures Settled(AddRef(c, i, -1), disk, fs, pid, dev, P - {c.slots[i].blockno}, H)
  {
    var x, c' := c.slots[i].blockno, AddRef(c, i, -1);
    assert SlotSettled(c.slots[i], fs, pid, dev, P, true);
    forall j | 0 <= j < NBUF ensures SlotSettled(c'.slots[j], fs, pid, dev, P - {x}, j in H) {
      assert SlotSettled(c.slots[j], fs, pid, dev, P, j in H);
    }
    forall y | y in P - {x} ensures exists j :: 0 <= j < NBUF && Caches(c'.slots[j], dev, y) {
      var j :| 0 <= j < NBUF && Caches(c.slots[j], dev, y);
      assert Caches(c'.slots[j], dev, y);
    }
  }

  // ---------- when a buffer can be had

  /** Every buffer is referenced: the panic of bget, unless the block is cached. */
  ghost predicate Busy(c: Cache) {
    Wf(c) && forall i | 0 <= i < NBUF :: c.slots[i].refcnt > 0
  }

  lemma ReadFails(c: Cache, disk: Disk, pid: nat, dev: uint, x: uint)
    requires CacheInv(c) && dev != 0 && x < |disk|
    ensures Read(c, disk, pid, dev, x).None? <==> Busy(c) && forall i | 0 <= i < NBUF :: !Matches(c.slots[i], dev, x)
  {
    forall i | 0 <= i < NBUF ensures Lookup(c, dev, x) == Some(i) <==> Matches(c.slots[i], dev, x) {
      LookupExact(c, dev, x, i);
    }
    forall i | 0 <= i < NBUF && VictimPos(c) < 0 ensures c.slots[i].refcnt > 0 {
      assert c.order[Pos(c.order, i)] == i;
    }
  }

  /** The buffers that cache the blocks of P. */
  ghost function Pinned(c: Cache, P: set<uint>): set<nat>
    requires |c.slots| == NBUF
  {
    set i: nat | i < NBUF && c.slots[i].valid && c.slots[i].blockno in P
  }

  /** The blocks of P are cached, each in one buffer. */
  ghost predicate Cached(c: Cache, P: set<uint>) {
    && |c.slots| == NBUF
    && (forall x | x in P :: exists i: nat :: i < NBUF && Valid(c.slots[i], x))
    && (forall i: nat, j: nat | i < j < NBUF && c.slots[i].valid :: !Valid(c.slots[j], c.slots[i].blockno))
  }

  ghost predicate Valid(s: Slot, x: uint) {
    s.valid && s.blockno == x
  }

  lemma SettledCached(c: Cache, disk: Disk, fs: Disk, pid: nat, dev: uint, P: set<uint>, H: set<nat>)
    requires Settled(c, disk, fs, pid, dev, P, H)
    ensures Wf(c) && |c.slots| == NBUF && Cached(c, P)
  {
    assert Wf(c);
    hide Wf;
    forall i: nat, j: nat | i < j < NBUF && c.slots[i].valid ensures !Valid(c.slots[j], c.slots[i].blockno) {
      assert SlotSettled(c.slots[i], fs, pid, dev, P, i in H) && SlotSettled(c.slots[j], fs, pid, dev, P, j in H);
    }
    forall x | x in P ensures exists i: nat :: i < NBUF && Valid(c.slots[i], x) {
      var i :| 0 <= i < NBUF && Caches(c.slots[i], dev, x);
      assert Valid(c.slots[i], x);
    }
  }

  /** Cached blocks and the buffers that cache them are equally many. */
  lemma {:induction false} PinnedSize(c: Cache, P: set<uint>)
    requires Cached(c, P)
    ensures |Pinned(c, P)| == |P|
    decreases P
  {
    if P != {} {
      var x :| x in P;
      var i: nat :| i < NBUF && Valid(c.slots[i], x);
      PinnedSize(c, P - {x});
      assert forall j: nat | j < NBUF && Valid(c.slots[j], x) :: j == i;
      hide Cached;
      assert Pinned(c, P) == Pinned(c, P - {x}) + {i};
    }
  }

  ghost function AllBuffers(n: nat): (r: set<nat>)
    ensures |r| == n && forall i: nat :: i in r <==> i < n
  {
    if n == 0 then {} else AllBuffers(n - 1) + {n - 1}
  }

  /** All buffers are referenced only if pins and held buffers make up for all of them. */
  lemma BusyNeeds(c: Cache, disk: Disk, fs: Disk, pid: nat, dev: uint, P: set<uint>, H: set<nat>)
    requires Settled(c, disk, fs, pid, dev, P, H) && Busy(c)
    ensures NBUF <= |P| + |H|
  {
    hide Wf, CacheInv;
    SettledCached(c, disk, fs, pid, dev, P, H);
    PinnedSize(c, P);
    forall i | i in AllBuffers(NBUF) ensures i in Pinned(c, P) + H {
      assert SlotSettled(c.slots[i], fs, pid, dev, P, i in H);
    }
    Subset(AllBuffers(NBUF), Pinned(c, P) + H);
    SizeOfUnion(Pinned(c, P), H);
  }

  /** With as many pinned blocks as buffers, every buffer is pinned. */
  lemma PinnedOut(c: Cache, disk: Disk, fs: Disk, pid: nat, dev: uint, P: set<uint>, H: set<nat>)
    requires Settled(c, disk, fs, pid, dev, P, H) && |P| >= NBUF
    ensures Busy(c) && forall i | 0 <= i < NBUF :: c.slots[i].blockno in P
  {
    hide Wf, CacheInv, Cached;
    SettledCached(c, disk, fs, pid, dev, P, H);
    PinnedSize(c, P);
    forall i: nat | i < NBUF ensures i in Pinned(c, P) { AllOf(Pinned(c, P), NBUF, i); }
    forall i | 0 <= i < NBUF ensures c.slots[i].refcnt > 0 && c.slots[i].blockno in P {
      assert i in Pinned(c, P);
      assert SlotSettled(c.slots[i], fs, pid, dev, P, i in H);
    }
  }

  lemma AllOf(a: set<nat>, n: nat, i: nat)
    requires |a| >= n && i < n && forall j | j in a :: j < n
    ensures i in a
  {
    if i !in a {
      Subset(a, AllBuffers(n) - {i});
    }
  }

  /** bread finds a buffer exactly if the block is pinned or fewer blocks are pinned than there are buffers. */
  lemma ReadSucceeds(c: Cache, disk: Disk, fs: Disk, pid: nat, dev: uint, P: set<uint>, H: set<nat>, x: uint)
    requires Settled(c, disk, fs, pid, dev, P, H) && x < |disk|
    ensures x in P || |P| + |H| < NBUF ==> Read(c, disk, pid, dev, x).Some?
    ensures H == {} && x !in P && |P| >= NBUF ==> Read(c, disk, pid, dev, x).None?
    ensures Read(c, disk, pid, dev, x).None? ==> Busy(c)
  {
    hide Wf, CacheInv, Read, SlotSettled;
    ReadFails(c, disk, pid, dev, x);
    if Busy(c) {
      BusyNeeds(c, disk, fs, pid, dev, P, H);
    }
    if |P| >= NBUF {
      PinnedOut(c, disk, fs, pid, dev, P, H);
    }
  }
}
