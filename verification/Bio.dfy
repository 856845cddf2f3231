/** The buffer cache of bio.c: NBUF static buffers on a circular doubly linked list through a
    head node, most recently released first. */
module Bio {
  import opened Options
  import opened Blocks
  import opened WriteAheadLog

  const NBUF := 30
  const HEAD := 30   // bcache.head, kept in the slot after the NBUF buffers

  /** What a struct buf says about its block; `holder` is the pid in its sleep lock. */
  datatype Slot = Slot(valid: bool, dev: uint, blockno: uint, refcnt: nat, holder: Option<nat>, data: Block)

  datatype Buf = Buf(slot: Slot, prev: nat, next: nat)

  // ---------- the list

  function Node(order: seq<nat>, k: int): nat {
    if 0 <= k < |order| then order[k] else HEAD
  }

  predicate Distinct(s: seq<nat>) {
    forall i, j | 0 <= i < j < |s| :: s[i] != s[j]
  }

  predicate Nodes(order: seq<nat>) {
    Distinct(order) && forall k | 0 <= k < |order| :: order[k] < NBUF
  }

  /** The first position of i in order, or its length. */
  function Pos(order: seq<nat>, i: nat): (p: nat)
    ensures p <= |order| && (p < |order| ==> order[p] == i)
  {
    if order == [] || order[0] == i then 0 else 1 + Pos(order[1..], i)
  }

  lemma {:induction false} PosOf(order: seq<nat>, i: nat)
    requires i in order
    ensures Pos(order, i) < |order|
  {
    if order[0] != i {
      PosOf(order[1..], i);
    }
  }

  /** Every buffer is on the list. */
  predicate Covers(order: seq<nat>) {
    forall i {:trigger Pos(order, i)} | 0 <= i < NBUF :: Pos(order, i) < |order|
  }

  /** Following next from the head visits exactly `order` and comes back; prev is the inverse. */
  ghost predicate Ring(bs: seq<Buf>, order: seq<nat>) {
    && |bs| == NBUF + 1 && Nodes(order)
    && forall k | -1 <= k < |order| ::
         bs[Node(order, k)].next == Node(order, k + 1) && bs[Node(order, k + 1)].prev == Node(order, k)
  }

  predicate InRange(bs: seq<Buf>) {
    |bs| == NBUF + 1 && forall i | 0 <= i <= NBUF :: bs[i].prev <= NBUF && bs[i].next <= NBUF
  }

  /** b->next->prev = b->prev; b->prev->next = b->next. */
  function Unlink(bs: seq<Buf>, b: nat): (r: seq<Buf>)
    requires InRange(bs) && b < NBUF
  {
    var s := bs[bs[b].next := bs[bs[b].next].(prev := bs[b].prev)];
    s[s[b].prev := s[s[b].prev].(next := s[b].next)]
  }

  /** Insert b after the head. */
  function Push(bs: seq<Buf>, b: nat): (r: seq<Buf>)
    requires |bs| == NBUF + 1 && bs[HEAD].next <= NBUF && b < NBUF
  {
    var s := bs[b := bs[b].(next := bs[HEAD].next, prev := HEAD)];
    var s1 := s[s[HEAD].next := s[s[HEAD].next].(prev := b)];
    s1[HEAD := s1[HEAD].(next := b)]
  }

  function Without(order: seq<nat>, k: nat): seq<nat>
    requires k < |order|
  {
    order[..k] + order[k+1..]
  }

  lemma UnlinkRing(bs: seq<Buf>, order: seq<nat>, k: nat)
    requires Ring(bs, order) && InRange(bs) && k < |order|
    ensures Ring(Unlink(bs, order[k]), Without(order, k)) && InRange(Unlink(bs, order[k]))
  {
    var b, o, r := order[k], Without(order, k), Unlink(bs, order[k]);
    assert bs[Node(order, k - 1)].next == b && bs[Node(order, k)].prev == Node(order, k - 1);
    assert bs[b].next == Node(order, k + 1);
    forall j | -1 <= j < |o|
      ensures r[Node(o, j)].next == Node(o, j + 1) && r[Node(o, j + 1)].prev == Node(o, j)
    {
      if j < k - 1 {
        assert Node(o, j) == Node(order, j) && Node(o, j + 1) == Node(order, j + 1);
      } else if j == k - 1 {
        assert Node(o, j) == Node(order, j) && Node(o, j + 1) == Node(order, k + 1);
      } else {
        assert Node(o, j) == Node(order, j + 1) && Node(o, j + 1) == Node(order, j + 2);
      }
    }
  }

  lemma PushRing(bs: seq<Buf>, order: seq<nat>, b: nat)
    requires Ring(bs, order) && InRange(bs) && b < NBUF && b !in order
    ensures Ring(Push(bs, b), [b] + order) && InRange(Push(bs, b))
  {
    var o, r := [b] + order, Push(bs, b);
    assert Node(order, -1) == HEAD && bs[Node(order, -1)].next == Node(order, 0);
    forall j | -1 <= j < |o|
      ensures r[Node(o, j)].next == Node(o, j + 1) && r[Node(o, j + 1)].prev == Node(o, j)
    {
      if j >= 1 {
        assert Node(o, j) == Node(order, j - 1) && Node(o, j + 1) == Node(order, j);
        assert Node(order, j) != Node(order, 0) && Node(order, j) != b && Node(order, j - 1) != HEAD;
        assert bs[Node(order, j - 1)].next == Node(order, j) && bs[Node(order, j)].prev == Node(order, j - 1);
      } else if j == 0 {
        assert Node(o, 0) == b && Node(o, 1) == Node(order, 0);
      } else {
        assert Node(o, -1) == HEAD && Node(o, 0) == b;
      }
    }
  }

  // ---------- the cache as a value

  datatype Cache = Cache(order: seq<nat>, slots: seq<Slot>)

  predicate Wf(c: Cache) {
    |c.slots| == NBUF && |c.order| == NBUF && Nodes(c.order) && Covers(c.order)
  }

  predicate Matches(s: Slot, dev: uint, blockno: uint) {
    s.dev == dev && s.blockno == blockno
  }

  /** No two buffers for one block of a real device, and only referenced buffers are locked. */
  ghost predicate CacheInv(c: Cache) {
    && Wf(c)
    && (forall i, j | 0 <= i < j < NBUF ::
          c.slots[i].dev != 0 ==> !Matches(c.slots[j], c.slots[i].dev, c.slots[i].blockno))
    && (forall i | 0 <= i < NBUF :: c.slots[i].refcnt == 0 ==> c.slots[i].holder == None)
  }

  /** The first buffer in list order from position k that caches the block. */
  function Lookup(c: Cache, dev: uint, blockno: uint, k: nat := 0): (r: Option<nat>)
    requires Wf(c) && k <= NBUF
    ensures r.Some? ==> r.value < NBUF && Matches(c.slots[r.value], dev, blockno)
    ensures r.None? ==> forall j | k <= j < NBUF :: !Matches(c.slots[c.order[j]], dev, blockno)
    decreases NBUF - k
  {
    if k == NBUF then None
    else if Matches(c.slots[c.order[k]], dev, blockno) then Some(c.order[k])
    else Lookup(c, dev, blockno, k + 1)
  }

  /** The last position in list order, below k, of an unreferenced buffer. */
  function VictimPos(c: Cache, k: nat := NBUF): (r: int)
    requires Wf(c) && k <= NBUF
    ensures -1 <= r < k
    ensures r >= 0 ==> c.slots[c.order[r]].refcnt == 0
    ensures forall j | r < j < k :: c.slots[c.order[j]].refcnt > 0
  {
    if k == 0 then -1
    else if c.slots[c.order[k-1]].refcnt == 0 then k - 1
    else VictimPos(c, k - 1)
  }

  /** bget up to the release of bcache.lock; None is the panic "bget: no buffers". */
  function Get(c: Cache, dev: uint, blockno: uint): (r: Option<(Cache, nat)>)
    requires Wf(c)
  {
    var hit := Lookup(c, dev, blockno);
    if hit.Some? then
      var s := c.slots[hit.value];
      Some((c.(slots := c.slots[hit.value := s.(refcnt := s.refcnt + 1)]), hit.value))
    else
      var k := VictimPos(c);
      if k < 0 then None else
        Some((Recycled(c, c.order[k], dev, blockno), c.order[k]))
  }

  function AddRef(c: Cache, i: nat, delta: int): Cache
    requires Wf(c) && i < NBUF && c.slots[i].refcnt + delta >= 0
  {
    c.(slots := c.slots[i := c.slots[i].(refcnt := c.slots[i].refcnt + delta)])
  }

  function MoveToFront(order: seq<nat>, i: nat): seq<nat> {
    [i] + RemoveNode(order, i)
  }

  function RemoveNode(order: seq<nat>, i: nat): seq<nat> {
    if order == [] then [] else if order[0] == i then order[1..] else [order[0]] + RemoveNode(order[1..], i)
  }

  /** brelse from its acquire of bcache.lock on. */
  function Put(c: Cache, i: nat): Cache
    requires Wf(c) && i < NBUF && c.slots[i].refcnt > 0
  {
    var c1 := AddRef(c, i, -1);
    if c1.slots[i].refcnt == 0 then c1.(order := MoveToFront(c.order, i)) else c1
  }

  lemma {:induction false} RemoveNodeAt(order: seq<nat>, k: nat)
    requires Nodes(order) && k < |order|
    ensures RemoveNode(order, order[k]) == Without(order, k)
  {
    if k > 0 {
      var rest := order[1..];
      assert Nodes(rest) && rest[k-1] == order[k];
      RemoveNodeAt(rest, k - 1);
      assert Without(order, k) == [order[0]] + Without(rest, k - 1);
    }
  }

  lemma MovedAt(order: seq<nat>, k: nat, j: nat)
    requires k < |order| && 0 < j < |order|
    ensures ([order[k]] + Without(order, k))[j] == order[if j <= k then j - 1 else j]
  {
  }

  lemma MovedNodes(order: seq<nat>, k: nat)
    requires Nodes(order) && k < |order|
    ensures Nodes([order[k]] + Without(order, k))
  {
    var o := [order[k]] + Without(order, k);
    forall i, j | 0 <= i < j < |o| ensures o[i] != o[j] {
      MovedAt(order, k, j);
      if i > 0 {
        MovedAt(order, k, i);
      }
    }
  }

  lemma MovedCovers(order: seq<nat>, k: nat)
    requires Covers(order) && k < |order|
    ensures Covers([order[k]] + Without(order, k))
  {
    var o := [order[k]] + Without(order, k);
    forall i | 0 <= i < NBUF ensures Pos(o, i) < |o| {
      var p := Pos(order, i);
      assert o[if p == k then 0 else if p < k then p + 1 else p] == i;
      PosOf(o, i);
    }
  }

  lemma MoveToFrontOrder(order: seq<nat>, k: nat)
    requires Nodes(order) && Covers(order) && k < |order|
    ensures MoveToFront(order, order[k]) == [order[k]] + Without(order, k)
    ensures Nodes([order[k]] + Without(order, k)) && Covers([order[k]] + Without(order, k))
  {
    RemoveNodeAt(order, k);
    MovedNodes(order, k);
    MovedCovers(order, k);
  }

  lemma OneBuffer(c: Cache, dev: uint, blockno: uint, i: nat, j: nat)
    requires CacheInv(c) && dev != 0 && i < NBUF && j < NBUF
    ensures Matches(c.slots[i], dev, blockno) && Matches(c.slots[j], dev, blockno) ==> i == j
  {
  }

  /** With one buffer per block, the search finds exactly the buffer that caches the block. */
  lemma LookupExact(c: Cache, dev: uint, blockno: uint, i: nat)
    requires CacheInv(c) && dev != 0 && i < NBUF
    ensures Lookup(c, dev, blockno) == Some(i) <==> Matches(c.slots[i], dev, blockno)
  {
    var r := Lookup(c, dev, blockno);
    if Matches(c.slots[i], dev, blockno) {
      var k := Pos(c.order, i);
      assert k < NBUF && c.order[k] == i && Matches(c.slots[c.order[k]], dev, blockno);
      assert r.Some?;
      OneBuffer(c, dev, blockno, i, r.value);
    }
  }

  /** Changing a buffer without changing its block. */
  lemma SlotKeepsInv(c: Cache, i: nat, s: Slot)
    requires CacheInv(c) && i < NBUF && Matches(s, c.slots[i].dev, c.slots[i].blockno)
    requires s.refcnt == 0 ==> s.holder == None
    ensures CacheInv(c.(slots := c.slots[i := s]))
  {
  }

  function Recycled(c: Cache, i: nat, dev: uint, blockno: uint): Cache
    requires Wf(c) && i < NBUF
  {
    c.(slots := c.slots[i := c.slots[i].(valid := false, dev := dev, blockno := blockno, refcnt := 1)])
  }

  lemma RecycleKeepsInv(c: Cache, i: nat, dev: uint, blockno: uint)
    requires CacheInv(c) && i < NBUF && forall j | 0 <= j < NBUF :: !Matches(c.slots[j], dev, blockno)
    ensures CacheInv(Recycled(c, i, dev, blockno))
  {
  }

  lemma GetKeepsInv(c: Cache, dev: uint, blockno: uint)
    requires CacheInv(c) && dev != 0
    ensures Get(c, dev, blockno).Some? ==> CacheInv(Get(c, dev, blockno).value.0)
  {
    var hit := Lookup(c, dev, blockno);
    if hit.Some? {
      var s := c.slots[hit.value];
      SlotKeepsInv(c, hit.value, s.(refcnt := s.refcnt + 1));
    } else if VictimPos(c) >= 0 {
      forall j | 0 <= j < NBUF ensures !Matches(c.slots[j], dev, blockno) {
        LookupExact(c, dev, blockno, j);
      }
      RecycleKeepsInv(c, c.order[VictimPos(c)], dev, blockno);
    }
  }

  lemma PutKeepsInv(c: Cache, i: nat)
    requires CacheInv(c) && i < NBUF && c.slots[i].refcnt > 0
    requires c.slots[i].refcnt == 1 ==> c.slots[i].holder == None
    ensures CacheInv(Put(c, i))
  {
    var k := Pos(c.order, i);
    assert c.order[k] == i;
    MoveToFrontOrder(c.order, k);
  }

  function Hold(c: Cache, i: nat, holder: Option<nat>): Cache
    requires Wf(c) && i < NBUF
  {
    c.(slots := c.slots[i := c.slots[i].(holder := holder)])
  }

  function SetData(c: Cache, i: nat, data: Block): Cache
    requires Wf(c) && i < NBUF
  {
    c.(slots := c.slots[i := c.slots[i].(data := data)])
  }

  /** bread: get the buffer, take its sleep lock for pid, and read the disk if it is not valid. */
  function Read(c: Cache, disk: Disk, pid: nat, dev: uint, blockno: uint): Option<(Cache, nat)>
    requires Wf(c) && blockno < |disk|
  {
    var g := Get(c, dev, blockno);
    if g.None? then None else
      var (c1, i) := g.value;
      var s := c1.slots[i];
      Some((c1.(slots := c1.slots[i := s.(valid := true, holder := Some(pid),
                                          data := if s.valid then s.data else disk[blockno])]), i))
  }

  lemma ReadKeepsInv(c: Cache, disk: Disk, pid: nat, dev: uint, blockno: uint)
    requires CacheInv(c) && dev != 0 && blockno < |disk|
    ensures Read(c, disk, pid, dev, blockno).Some? ==> CacheInv(Read(c, disk, pid, dev, blockno).value.0)
  {
    GetKeepsInv(c, dev, blockno);
  }

  // ---------- the cache as the kernel keeps it

  function Slots(bs: seq<Buf>): (r: seq<Slot>)
    requires |bs| == NBUF + 1
  {
    seq(NBUF, i requires 0 <= i < NBUF => bs[i].slot)
  }

  class BufferCache {
    const buf: array<Buf>
    var disk: Disk
    ghost var order: seq<nat>
    ghost var writes: seq<Write>   // every bwrite so far

    ghost function Abs(): Cache
      requires buf.Length == NBUF + 1
      reads this, buf
    {
      Cache(order, Slots(buf[..]))
    }

    ghost predicate Valid()
      reads this, buf
    {
      buf.Length == NBUF + 1 && Ring(buf[..], order) && InRange(buf[..]) && CacheInv(Abs())
    }

    /** binit, on zeroed buffers. */
    constructor (disk: Disk)
      ensures Valid() && fresh(buf) && this.disk == disk && writes == []
      ensures order == seq(NBUF, i => NBUF - 1 - i)
      ensures forall i | 0 <= i < NBUF :: Abs().slots[i] == Slot(false, 0, 0, 0, None, ZeroBlock())
    {
      var empty := Buf(Slot(false, 0, 0, 0, None, ZeroBlock()), HEAD, HEAD);
      buf := new Buf[NBUF + 1](_ => empty);
      this.disk := disk;
      order := [];
      writes := [];
      new;
      var b := 0;
      while b < NBUF
        invariant 0 <= b <= NBUF
        invariant Ring(buf[..], order) && InRange(buf[..])
        invariant order == seq(b, i => b - 1 - i)
        invariant forall i | 0 <= i <= NBUF :: buf[i].slot == empty.slot
        invariant this.disk == disk && writes == []
      {
        PushFront(b);
        b := b + 1;
      }
      forall i | 0 <= i < NBUF ensures Pos(order, i) < |order| {
        assert order[NBUF - 1 - i] == i;
        PosOf(order, i);
      }
    }

    method PushFront(b: nat)
      requires buf.Length == NBUF + 1 && Ring(buf[..], order) && InRange(buf[..]) && b < NBUF && b !in order
      modifies buf, `order
      ensures Ring(buf[..], order) && InRange(buf[..]) && order == [b] + old(order)
      ensures forall i | 0 <= i <= NBUF :: buf[i].slot == old(buf[i].slot)
    {
      ghost var bs := buf[..];
      buf[b] := buf[b].(next := buf[HEAD].next, prev := HEAD);
      buf[buf[HEAD].next] := buf[buf[HEAD].next].(prev := b);
      buf[HEAD] := buf[HEAD].(next := b);
      assert buf[..] == Push(bs, b);
      PushRing(bs, order, b);
      order := [b] + order;
    }

    method UnlinkNode(b: nat)
      requires buf.Length == NBUF + 1 && Ring(buf[..], order) && InRange(buf[..]) && b in order
      modifies buf, `order
      ensures Ring(buf[..], order) && InRange(buf[..]) && order == RemoveNode(old(order), b)
      ensures b !in order
      ensures forall i | 0 <= i <= NBUF :: buf[i].slot == old(buf[i].slot)
    {
      ghost var bs := buf[..];
      ghost var k :| 0 <= k < |order| && order[k] == b;
      buf[buf[b].next] := buf[buf[b].next].(prev := buf[b].prev);
      buf[buf[b].prev] := buf[buf[b].prev].(next := buf[b].next);
      assert buf[..] == Unlink(bs, b);
      UnlinkRing(bs, order, k);
      RemoveNodeAt(order, k);
      order := Without(order, k);
    }

    /** Replace what a buffer says about its block, leaving the list alone. */
    method SetSlot(b: nat, s: Slot)
      requires buf.Length == NBUF + 1 && Ring(buf[..], order) && InRange(buf[..]) && b < NBUF
      modifies buf
      ensures Ring(buf[..], order) && InRange(buf[..])
      ensures Abs() == old(Abs()).(slots := old(Abs()).slots[b := s])
    {
      ghost var bs, c := buf[..], Abs();
      buf[b] := buf[b].(slot := s);
      assert forall i | 0 <= i <= NBUF :: buf[i].next == bs[i].next && buf[i].prev == bs[i].prev;
      assert Slots(buf[..]) == c.slots[b := s];
    }

    /** The first loop of bget: from the head along next. */
    method FindCached(dev: uint, blockno: uint) returns (r: Option<nat>)
      requires Valid()
      ensures r == Lookup(Abs(), dev, blockno)
    {
      var b := buf[HEAD].next;
      ghost var k := 0;
      assert Node(order, -1) == HEAD;
      while b != HEAD
        invariant 0 <= k <= NBUF && b == Node(order, k)
        invariant Lookup(Abs(), dev, blockno) == Lookup(Abs(), dev, blockno, k)
        decreases NBUF - k
      {
        if buf[b].slot.dev == dev && buf[b].slot.blockno == blockno {
          return Some(b);
        }
        b, k := buf[b].next, k + 1;
      }
      return None;
    }

    /** The second loop of bget: from the head along prev, for an unreferenced buffer. */
    method FindUnused() returns (r: Option<nat>)
      requires Valid()
      ensures r == if VictimPos(Abs()) < 0 then None else Some(order[VictimPos(Abs())])
    {
      var b := buf[HEAD].prev;
      ghost var k := NBUF;
      assert Node(order, NBUF) == HEAD && b == Node(order, NBUF - 1);
      while b != HEAD
        invariant 0 <= k <= NBUF && b == Node(order, k - 1)
        invariant VictimPos(Abs()) == VictimPos(Abs(), k)
        decreases k
      {
        if buf[b].slot.refcnt == 0 {
          return Some(b);
        }
        b, k := buf[b].prev, k - 1;
      }
      return None;
    }

    /** bget up to its release of bcache.lock. */
    method Bget(dev: uint, blockno: uint) returns (r: Option<nat>)
      requires Valid() && dev != 0
      modifies buf
      ensures Valid()
      ensures match Get(old(Abs()), dev, blockno)
              case None => r == None && Abs() == old(Abs())
              case Some((c, i)) => r == Some(i) && Abs() == c
    {
      GetKeepsInv(Abs(), dev, blockno);
      hide Ring, InRange, Nodes, Covers, CacheInv, Lookup, VictimPos;
      r := FindCached(dev, blockno);
      if r.Some? {
        SetSlot(r.value, buf[r.value].slot.(refcnt := buf[r.value].slot.refcnt + 1));
        return;
      }
      r := FindUnused();
      if r.Some? {
        SetSlot(r.value, buf[r.value].slot.(dev := dev, blockno := blockno, valid := false, refcnt := 1));
      }
    }

    /** bread by process pid; it returns only once the buffer's sleep lock is free. */
    method Bread(pid: nat, dev: uint, blockno: uint) returns (r: Option<nat>)
      requires Valid() && dev != 0 && blockno < |disk|
      requires forall i | 0 <= i < NBUF && Matches(Abs().slots[i], dev, blockno) :: Abs().slots[i].holder == None
      modifies buf
      ensures Valid()
      ensures match Read(old(Abs()), disk, pid, dev, blockno)
              case None => r == None && Abs() == old(Abs())
              case Some((c, i)) => r == Some(i) && Abs() == c
    {
      ReadKeepsInv(Abs(), disk, pid, dev, blockno);
      r := Bget(dev, blockno);
      if r.Some? {
        var s := buf[r.value].slot;
        var data := if s.valid then s.data else disk[blockno];
        SetSlot(r.value, s.(valid := true, holder := Some(pid), data := data));
      }
    }

    /** Store into the data of a buffer the caller holds. */
    method Store(b: nat, data: Block)
      requires Valid() && b < NBUF
      modifies buf
      ensures Valid() && Abs() == SetData(old(Abs()), b, data)
    {
      SlotKeepsInv(Abs(), b, buf[b].slot.(data := data));
      SetSlot(b, buf[b].slot.(data := data));
    }

    /** bwrite; false is the panic for a caller that does not hold the buffer. */
    method Bwrite(pid: nat, b: nat) returns (ok: bool)
      requires Valid() && b < NBUF && Abs().slots[b].blockno < |disk|
      modifies `disk, `writes
      ensures ok == (Abs().slots[b].holder == Some(pid))
      ensures ok ==> disk == old(disk)[Abs().slots[b].blockno := Abs().slots[b].data]
      ensures ok ==> writes == old(writes) + [Write(Abs().slots[b].blockno, Abs().slots[b].data)]
      ensures !ok ==> disk == old(disk) && writes == old(writes)
    {
      ok := buf[b].slot.holder == Some(pid);
      if ok {
        disk := disk[buf[b].slot.blockno := buf[b].slot.data];
        writes := writes + [Write(buf[b].slot.blockno, buf[b].slot.data)];
      }
    }

    /** brelse; false is the panic for a caller that does not hold the buffer. */
    method Brelse(pid: nat, b: nat) returns (ok: bool)
      requires Valid() && b < NBUF
      modifies buf, `order
      ensures Valid()
      ensures ok == (old(Abs()).slots[b].holder == Some(pid))
      ensures Abs() == if ok then Put(Hold(old(Abs()), b, None), b) else old(Abs())
    {
      ok := buf[b].slot.holder == Some(pid);
      if ok {
        ghost var c := Hold(Abs(), b, None);
        PutKeepsInv(c, b);
        var s := buf[b].slot;
        SetSlot(b, s.(holder := None, refcnt := s.refcnt - 1));
        if s.refcnt == 1 {
          assert order[Pos(order, b)] == b;
          MoveFront(b);
        }
        assert Abs().slots == Put(c, b).slots;
      }
    }

    method MoveFront(b: nat)
      requires buf.Length == NBUF + 1 && Ring(buf[..], order) && InRange(buf[..]) && b in order
      modifies buf, `order
      ensures Ring(buf[..], order) && InRange(buf[..])
      ensures Abs() == old(Abs()).(order := MoveToFront(old(order), b))
    {
      ghost var c := Abs();
      UnlinkNode(b);
      PushFront(b);
      assert Abs().slots == c.slots;
    }

    method Bpin(b: nat)
      requires Valid() && b < NBUF && Abs().slots[b].refcnt > 0
      modifies buf
      ensures Valid() && Abs() == AddRef(old(Abs()), b, 1)
    {
      SlotKeepsInv(Abs(), b, buf[b].slot.(refcnt := buf[b].slot.refcnt + 1));
      SetSlot(b, buf[b].slot.(refcnt := buf[b].slot.refcnt + 1));
    }

    method Bunpin(b: nat)
      requires Valid() && b < NBUF && Abs().slots[b].refcnt > 0
      requires Abs().slots[b].refcnt == 1 ==> Abs().slots[b].holder == None
      modifies buf
      ensures Valid() && Abs() == AddRef(old(Abs()), b, -1)
    {
      SlotKeepsInv(Abs(), b, buf[b].slot.(refcnt := buf[b].slot.refcnt - 1));
      SetSlot(b, buf[b].slot.(refcnt := buf[b].slot.refcnt - 1));
    }
  }
}
