/** The virtio disk driver's split queue (sections 2.6 and 5.2 of VIRTIO 1.1): driver steps under vdisk_lock,
    interleaved with a device that takes available chains in order and completes them in any order. */
module Virtio {
  import opened Options
  import opened Blocks

  const NUM: nat := 8
  const WRAP: nat := 65536            // ring indices are 16 bits wide

  /** What a descriptor points at: a request header, a buffer's data, a status byte. */
  datatype Addr = Nowhere | OpsAt(i: nat) | DataOf(b: nat) | StatusAt(i: nat)

  datatype Desc = Desc(addr: Addr, len: nat, write: bool, hasNext: bool, next: nat)

  /** A request header: whether to write the disk, and where, in sectors of 512 bytes. */
  datatype Header = Header(write: bool, sector: nat)

  datatype Info = Info(b: Option<nat>, status: nat)

  /** Where a request is: in the available ring as entry n, with the device, in the used ring as entry n, or seen
      by the interrupt handler. */
  datatype Phase = Queued(n: nat) | Taken | Used(n: nat) | Done

  /** A pending request, named by its first descriptor; data and before are what the buffer and the block held when it
      was submitted. */
  datatype Req = Req(b: nat, block: nat, write: bool, data: Block, before: Option<Block>, c1: nat, c2: nat,
                     phase: Phase)

  datatype State = State(
    free: seq<bool>, desc: seq<Desc>, info: seq<Info>, ops: seq<Header>,
    mem: map<nat, Block>,                      // b->data of each buffer
    disk: map<nat, Block>,                     // the device's blocks, of two sectors each
    avail: seq<nat>, availIdx: nat,            // avail->ring and avail->idx
    used: seq<nat>, usedEnd: nat,              // used->ring and used->idx, written by the device
    usedIdx: nat,                              // disk.used_idx
    busy: set<nat>,                            // buffers with b->disk == 1
    dev: nat,                                  // how far the device has looked in the available ring
    // history
    reqs: map<nat, Req>, own: seq<Option<nat>>, a: nat, d: nat, u: nat, r: nat)

  // ---------- the driver's part

  predicate IsFirst(free: seq<bool>, i: nat) {
    i < |free| && free[i] && forall j: nat | j < i :: !free[j]
  }

  /** alloc3_desc took i0, i1 and i2, each the first free descriptor at its time. */
  ghost predicate Alloc3(free: seq<bool>, i0: nat, i1: nat, i2: nat) {
    && IsFirst(free, i0) && IsFirst(free[i0 := false], i1) && IsFirst(free[i0 := false][i1 := false], i2)
  }

  function Find(m: map<nat, Block>, k: nat): Option<Block> {
    if k in m then Some(m[k]) else None
  }

  function Chained(desc: seq<Desc>, i0: nat, i1: nat, i2: nat, b: nat, write: bool): (r: seq<Desc>)
    requires i0 < |desc| && i1 < |desc| && i2 < |desc|
    ensures |r| == |desc|
  {
    desc[i0 := Desc(OpsAt(i0), 16, false, true, i1)][i1 := Desc(DataOf(b), BSIZE, !write, true, i2)]
        [i2 := Desc(StatusAt(i0), 1, true, false, 0)]
  }

  /** virtio_disk_rw up to the notification.  The caller holds the buffer, and no other buffer is for its block. */
  ghost predicate Submit(s: State, b: nat, block: nat, write: bool, i0: nat, i1: nat, i2: nat, s': State) {
    && |s.free| == |s.desc| == |s.info| == |s.own| == |s.avail| == |s.ops| == NUM
    && i0 < NUM && i1 < NUM && i2 < NUM && Alloc3(s.free, i0, i1, i2) && b !in s.busy && b in s.mem
    && (forall h | h in s.reqs :: s.reqs[h].b != b && s.reqs[h].block != block)
    && s' == s.(free := s.free[i0 := false][i1 := false][i2 := false],
                desc := Chained(s.desc, i0, i1, i2, b, write),
                info := s.info[i0 := Info(Some(b), 255)],
                ops := s.ops[i0 := Header(write, block * (BSIZE / 512))],
                busy := s.busy + {b},
                avail := s.avail[s.availIdx % NUM := i0], availIdx := (s.availIdx + 1) % WRAP,
                reqs := s.reqs[i0 := Req(b, block, write, s.mem[b], Find(s.disk, block), i1, i2, Queued(s.a))],
                a := s.a + 1,
                own := s.own[i0 := Some(i0)][i1 := Some(i0)][i2 := Some(i0)])
  }

  /** One pass of virtio_disk_intr's loop; a status other than 0 makes it panic instead. */
  ghost predicate Intr(s: State, s': State) {
    && |s.used| == NUM && s.usedIdx != s.usedEnd
    && var id := s.used[s.usedIdx % NUM];
      && id < |s.info| && s.info[id].status == 0 && s.info[id].b.Some?
      && s' == s.(busy := s.busy - {s.info[id].b.value}, usedIdx := (s.usedIdx + 1) % WRAP,
                  reqs := if id in s.reqs then s.reqs[id := s.reqs[id].(phase := Done)] else s.reqs, r := s.r + 1)
  }

  const CLEARED := Desc(Nowhere, 0, false, false, 0)

  function Mark3<T>(q: seq<T>, i: nat, j: nat, k: nat, v: T): seq<T>
    requires i < |q| && j < |q| && k < |q|
  {
    q[i := v][j := v][k := v]
  }

  /** virtio_disk_rw once b->disk is 0: free the chain of request h, found by following next. */
  ghost predicate Finish(s: State, h: nat, s': State) {
    && |s.free| == |s.desc| == |s.info| == |s.own| == NUM && h < NUM && h in s.reqs && s.reqs[h].b !in s.busy
    && s.desc[h].next < NUM && s.desc[s.desc[h].next].next < NUM
    && var c1 := s.desc[h].next; var c2 := s.desc[c1].next;
      s' == s.(free := Mark3(s.free, h, c1, c2, true), desc := Mark3(s.desc, h, c1, c2, CLEARED),
               info := s.info[h := s.info[h].(b := None)], reqs := s.reqs - {h}, own := Mark3(s.own, h, c1, c2, None))
  }

  // ---------- the device's part

  /** The device takes the next available chain. */
  ghost predicate DevTake(s: State, s': State) {
    && |s.avail| == NUM && s.dev != s.availIdx
    && var h := s.avail[s.dev % NUM];
      s' == s.(dev := (s.dev + 1) % WRAP, d := s.d + 1,
               reqs := if h in s.reqs then s.reqs[h := s.reqs[h].(phase := Taken)] else s.reqs)
  }

  /** A block request as section 5.2.6 of VIRTIO 1.1 lays it out: a header to read, data, a status byte to write. */
  predicate WellFormed(d0: Desc, d1: Desc, d2: Desc) {
    && d0.addr.OpsAt? && d0.len == 16 && !d0.write && d0.hasNext
    && d1.addr.DataOf? && d1.hasNext
    && d2.addr.StatusAt? && d2.len >= 1 && d2.write && !d2.hasNext
  }

  /** The first n bytes of one block over those of another. */
  function Moved(from: Block, to: Block, n: nat): Block {
    if n < BSIZE then from[..n] + to[n..] else from
  }

  /** The device carries out a request on n bytes of buffer b, which it is told to write or to read.  With an error
      the target holds anything; told to write the buffer for a disk write, or only to read it for a disk read, it
      cannot do what is asked. */
  function Carried(mem: map<nat, Block>, disk: map<nat, Block>, r: Header, b: nat, n: nat, writes: bool, status: nat,
      junk: Block): (map<nat, Block>, map<nat, Block>)
  {
    var k := r.sector / 2;
    if r.sector % 2 != 0 || k !in disk || b !in mem then (mem, disk)
    else if r.write then
      if writes then (mem[b := junk], disk)
      else (mem, disk[k := if status == 0 then Moved(mem[b], disk[k], n) else junk])
    else
      if writes then (mem[b := if status == 0 then Moved(disk[k], mem[b], n) else junk], disk)
      else (mem, disk)
  }

  /** The device finishes a chain it has taken: it does what the three descriptors and the header say, writes some
      status, which is not 0 for a block it does not have, and reports the chain in the used ring. */
  ghost predicate DevComplete(s: State, h: nat, status: nat, junk: Block, s': State) {
    && h in s.reqs && s.reqs[h].phase.Taken? && |s.used| == NUM && |s.desc| == NUM
    && h < NUM && s.desc[h].next < NUM && s.desc[s.desc[h].next].next < NUM
    && var d0, d1 := s.desc[h], s.desc[s.desc[h].next];
       var d2 := s.desc[d1.next];
       var ok := WellFormed(d0, d1, d2) && d0.addr.i < |s.ops| && d2.addr.i < |s.info|;
    && (ok && (s.ops[d0.addr.i].sector % 2 != 0 || s.ops[d0.addr.i].sector / 2 !in s.disk) ==> status != 0)
    && var (mem, disk) :=
         if ok then Carried(s.mem, s.disk, s.ops[d0.addr.i], d1.addr.b, d1.len, d1.write, status, junk)
         else (s.mem, s.disk);
       s' == s.(info := if ok then s.info[d2.addr.i := s.info[d2.addr.i].(status := status)] else s.info,
                mem := mem, disk := disk,
                used := s.used[s.usedEnd % NUM := h], usedEnd := (s.usedEnd + 1) % WRAP, u := s.u + 1,
                reqs := s.reqs[h := s.reqs[h].(phase := Used(s.u))])
  }

  /** A process changes a buffer it holds, outside virtio_disk_rw. */
  ghost predicate StoreStep(s: State, b: nat, data: Block, s': State) {
    b in s.mem && (forall h | h in s.reqs :: s.reqs[h].b != b) && s' == s.(mem := s.mem[b := data])
  }

  datatype Event =
    | DoSubmit(b: nat, block: nat, write: bool, i0: nat, i1: nat, i2: nat)
    | DoIntr
    | DoFinish(h: nat)
    | DoTake
    | DoComplete(h: nat, status: nat, junk: Block)
    | DoStore(b: nat, data: Block)

  ghost predicate Next(s: State, e: Event, s': State) {
    match e
    case DoSubmit(b, block, write, i0, i1, i2) => Submit(s, b, block, write, i0, i1, i2, s')
    case DoIntr => Intr(s, s')
    case DoFinish(h) => Finish(s, h, s')
    case DoTake => DevTake(s, s')
    case DoComplete(h, status, junk) => DevComplete(s, h, status, junk, s')
    case DoStore(b, data) => StoreStep(s, b, data, s')
  }

  ghost predicate Boot(s: State) {
    && Sizes(s)
    && (forall i: nat | i < NUM :: s.free[i] && s.own[i].None?)
    && s.availIdx == s.usedEnd == s.usedIdx == s.dev == s.a == s.d == s.u == s.r == 0
    && s.busy == {} && s.reqs == map[]
  }

  // ---------- what every step keeps

  ghost predicate Sizes(s: State) {
    |s.free| == |s.desc| == |s.info| == |s.own| == |s.avail| == |s.used| == |s.ops| == NUM
  }

  /** The 16-bit indices are the true counts, wrapped. */
  ghost predicate Indices(s: State) {
    && s.availIdx == s.a % WRAP && s.dev == s.d % WRAP && s.usedEnd == s.u % WRAP && s.usedIdx == s.r % WRAP
    && s.d <= s.a && s.r <= s.u
  }

  /** A pending request's three descriptors are its own, chained and distinct. */
  ghost predicate ChainOk(s: State, h: nat)
    requires h in s.reqs
  {
    var c1, c2 := s.reqs[h].c1, s.reqs[h].c2;
    && h < NUM && c1 < NUM && c2 < NUM && h != c1 && h != c2 && c1 != c2
    && Sizes(s) && s.own[h] == s.own[c1] == s.own[c2] == Some(h)
    && s.desc[h].hasNext && s.desc[h].next == c1 && s.desc[c1].hasNext && s.desc[c1].next == c2 && !s.desc[c2].hasNext
    && s.info[h].b == Some(s.reqs[h].b)
    && (s.reqs[h].b in s.busy <==> !s.reqs[h].phase.Done?)
  }

  ghost predicate Chains(s: State) {
    forall h | h in s.reqs :: ChainOk(s, h)
  }

  /** A descriptor is free, or belongs to the chain of one pending request. */
  ghost predicate SlotOk(s: State, i: nat)
    requires i < NUM && Sizes(s)
  {
    && (s.free[i] <==> s.own[i].None?)
    && (s.own[i].Some? ==> s.own[i].value in s.reqs && i in Slots3(s, s.own[i].value))
  }

  ghost predicate Slots(s: State)
    requires Sizes(s)
  {
    forall i: nat | i < NUM :: SlotOk(s, i)
  }

  ghost predicate PhaseOk(s: State, h: nat)
    requires h in s.reqs && Sizes(s)
  {
    match s.reqs[h].phase
    case Queued(n) => s.d <= n < s.a && s.avail[n % NUM] == h
    case Used(n) => s.r <= n < s.u && s.used[n % NUM] == h
    case _ => true
  }

  /** Ring entries not yet read are the pending requests in that phase. */
  ghost predicate AvailAt(s: State, n: nat)
    requires Sizes(s)
  {
    s.avail[n % NUM] in s.reqs && s.reqs[s.avail[n % NUM]].phase == Queued(n)
  }

  ghost predicate UsedAt(s: State, n: nat)
    requires Sizes(s)
  {
    s.used[n % NUM] in s.reqs && s.reqs[s.used[n % NUM]].phase == Used(n)
  }

  ghost predicate Rings(s: State)
    requires Sizes(s)
  {
    && (forall h | h in s.reqs :: PhaseOk(s, h))
    && (forall n: nat | s.d <= n < s.a :: AvailAt(s, n))
    && (forall n: nat | s.r <= n < s.u :: UsedAt(s, n))
  }

  /** Ring positions less than NUM apart differ. */
  lemma Positions(m: nat, n: nat)
    requires m < n < m + NUM
    ensures m % NUM != n % NUM
  {
  }

  /** No two pending requests use the same buffer. */
  ghost predicate Buffers(s: State) {
    forall h, g | h in s.reqs && g in s.reqs && s.reqs[h].b == s.reqs[g].b :: h == g
  }

  ghost predicate Inv(s: State) {
    Sizes(s) && Indices(s) && Chains(s) && Slots(s) && Rings(s) && Buffers(s)
  }

  // ---------- at most two requests are pending

  lemma NoThree(s: State, f: nat, g: nat, h: nat)
    requires Inv(s) && f in s.reqs && g in s.reqs && h in s.reqs
    ensures f == g || g == h || f == h
  {
    hide Rings, Indices, Buffers, Slots;
    if f != g && g != h && f != h {
      var x, y, z := Slots3(s, f), Slots3(s, g), Slots3(s, h);
      Slots3Apart(s, f, g);
      Slots3Apart(s, g, h);
      Slots3Apart(s, f, h);
      assert |x + y + z| == 9 by {
        Slots3Size(s, f);
        Slots3Size(s, g);
        Slots3Size(s, h);
      }
      AllSlots(x + y + z, NUM);
    }
  }

  ghost function Slots3(s: State, h: nat): set<nat>
    requires h in s.reqs
  {
    {h, s.reqs[h].c1, s.reqs[h].c2}
  }

  lemma Slots3Size(s: State, h: nat)
    requires h in s.reqs && ChainOk(s, h)
    ensures |Slots3(s, h)| == 3 && forall i | i in Slots3(s, h) :: i < NUM
  {
  }

  lemma Slots3Apart(s: State, g: nat, h: nat)
    requires g in s.reqs && h in s.reqs && ChainOk(s, g) && ChainOk(s, h) && g != h
    ensures Slots3(s, g) !! Slots3(s, h)
  {
  }

  lemma {:induction false} AllSlots(x: set<nat>, n: nat)
    requires forall i | i in x :: i < n
    ensures |x| <= n
    decreases n
  {
    if n > 0 {
      AllSlots(x - {n - 1}, n - 1);
    }
  }

  lemma BootInv(s: State)
    requires Boot(s)
    ensures Inv(s)
  {
    assert forall i: nat | i < NUM :: SlotOk(s, i);
  }

  /** Neither ring ever holds more than two unread entries. */
  lemma FewUnread(s: State)
    requires Inv(s)
    ensures s.a - s.d <= 2 && s.u - s.r <= 2
  {
    if s.a - s.d >= 3 {
      assert AvailAt(s, s.d) && AvailAt(s, s.d + 1) && AvailAt(s, s.d + 2);
      NoThree(s, s.avail[s.d % NUM], s.avail[(s.d + 1) % NUM], s.avail[(s.d + 2) % NUM]);
    }
    if s.u - s.r >= 3 {
      assert UsedAt(s, s.r) && UsedAt(s, s.r + 1) && UsedAt(s, s.r + 2);
      NoThree(s, s.used[s.r % NUM], s.used[(s.r + 1) % NUM], s.used[(s.r + 2) % NUM]);
    }
  }

  // ---------- every step keeps it

  /** The three descriptors taken were free, and differ. */
  lemma Alloc3Free(free: seq<bool>, i0: nat, i1: nat, i2: nat)
    requires Alloc3(free, i0, i1, i2)
    ensures i0 < |free| && i1 < |free| && i2 < |free| && free[i0] && free[i1] && free[i2]
    ensures i0 != i1 && i1 != i2 && i0 != i2
  {
  }

  /** A free descriptor is in no pending chain. */
  lemma FreeUnowned(s: State, i: nat, h: nat)
    requires Inv(s) && i < NUM && s.free[i] && h in s.reqs
    ensures i !in Slots3(s, h)
  {
    hide Rings, Buffers, Indices;
    assert SlotOk(s, i) && ChainOk(s, h);
  }

  lemma SubmitChain(s: State, b: nat, block: nat, write: bool, i0: nat, i1: nat, i2: nat, s': State, h: nat)
    requires Inv(s) && Submit(s, b, block, write, i0, i1, i2, s') && h in s'.reqs
    ensures ChainOk(s', h)
  {
    hide Rings, Indices, Slots;
    Alloc3Free(s.free, i0, i1, i2);
    if h != i0 {
      assert ChainOk(s, h);
      FreeUnowned(s, i0, h);
      FreeUnowned(s, i1, h);
      FreeUnowned(s, i2, h);
    }
  }

  lemma SubmitSlot(s: State, b: nat, block: nat, write: bool, i0: nat, i1: nat, i2: nat, s': State, i: nat)
    requires Inv(s) && Submit(s, b, block, write, i0, i1, i2, s') && i < NUM
    ensures Sizes(s') && SlotOk(s', i)
  {
    hide Rings, Indices, Buffers;
    Alloc3Free(s.free, i0, i1, i2);
    assert SlotOk(s, i) && SlotOk(s, i0);
    if s.own[i].Some? {
      assert ChainOk(s, s.own[i].value);
      FreeUnowned(s, i0, s.own[i].value);
    }
  }

  lemma SubmitRings(s: State, b: nat, block: nat, write: bool, i0: nat, i1: nat, i2: nat, s': State)
    requires Inv(s) && Submit(s, b, block, write, i0, i1, i2, s')
    ensures Sizes(s') && Indices(s') && Rings(s') && Buffers(s')
  {
    FewUnread(s);
    Alloc3Free(s.free, i0, i1, i2);
    forall h | h in s.reqs ensures h != i0 { FreeUnowned(s, i0, h); }
    WrapNum(s.a);
    SubmitIndices(s, b, block, write, i0, i1, i2, s');
    hide Chains, Slots, Submit, Indices, AvailAt, UsedAt, PhaseOk;
    forall n: nat | s'.d <= n < s'.a ensures AvailAt(s', n) {
      SubmitAvail(s, b, block, write, i0, i1, i2, s', n);
    }
    forall n: nat | s'.r <= n < s'.u ensures UsedAt(s', n) {
      assert UsedAt(s, n);
      SubmitUsed(s, b, block, write, i0, i1, i2, s', n);
    }
    forall h | h in s'.reqs ensures PhaseOk(s', h) {
      SubmitPhase(s, b, block, write, i0, i1, i2, s', h);
    }
  }

  lemma SubmitIndices(s: State, b: nat, block: nat, write: bool, i0: nat, i1: nat, i2: nat, s': State)
    requires Sizes(s) && Indices(s) && Buffers(s) && Submit(s, b, block, write, i0, i1, i2, s')
    ensures Sizes(s') && Indices(s') && Buffers(s') && s'.d == s.d && s'.r == s.r && s'.u == s.u && s'.a == s.a + 1
  {
    WrapNum(s.a);
    hide Alloc3, Chained;
  }

  lemma SubmitAvail(s: State, b: nat, block: nat, write: bool, i0: nat, i1: nat, i2: nat, s': State, n: nat)
    requires Sizes(s) && Indices(s) && Submit(s, b, block, write, i0, i1, i2, s') && s.a - s.d <= 2 && i0 !in s.reqs
    requires s.d <= n <= s.a && (n < s.a ==> AvailAt(s, n))
    ensures Sizes(s') && AvailAt(s', n)
  {
    hide Alloc3, Chained;
    WrapNum(s.a);
    if n < s.a {
      Positions(n, s.a);
    }
  }

  lemma SubmitUsed(s: State, b: nat, block: nat, write: bool, i0: nat, i1: nat, i2: nat, s': State, n: nat)
    requires Sizes(s) && Submit(s, b, block, write, i0, i1, i2, s') && i0 !in s.reqs && UsedAt(s, n)
    ensures Sizes(s') && UsedAt(s', n)
  {
    hide Alloc3, Chained;
  }

  lemma SubmitPhase(s: State, b: nat, block: nat, write: bool, i0: nat, i1: nat, i2: nat, s': State, h: nat)
    requires Sizes(s) && Indices(s) && Submit(s, b, block, write, i0, i1, i2, s') && s.a - s.d <= 2 && h in s'.reqs
    requires h in s.reqs ==> PhaseOk(s, h)
    ensures Sizes(s') && PhaseOk(s', h)
  {
    hide Alloc3, Chained;
    WrapNum(s.a);
    if h in s.reqs && s.reqs[h].phase.Queued? {
      Positions(s.reqs[h].phase.n, s.a);
    }
  }

  lemma WrapNum(n: nat)
    ensures n % WRAP % NUM == n % NUM && (n % WRAP + 1) % WRAP == (n + 1) % WRAP
  {
    var q, r := n / WRAP, n % WRAP;
    assert n == 65536 * q + r && r < 65536;
    Remainder(8192 * q + r / 8, r % 8, NUM, n);
    if r + 1 < WRAP {
      Remainder(q, r + 1, WRAP, n + 1);
    } else {
      Remainder(q + 1, 0, WRAP, n + 1);
    }
  }

  lemma Remainder(q: nat, r: nat, m: nat, n: nat)
    requires n == m * q + r && r < m
    ensures n % m == r
  {
    var d := n / m - q;
    assert m * d == r - n % m;
    Scaled(m, d);
  }

  lemma Scaled(m: nat, d: int)
    ensures (d >= 1 ==> m * d >= m) && (d <= -1 ==> m * d + m <= 0)
  {
  }

  lemma SubmitKeeps(s: State, b: nat, block: nat, write: bool, i0: nat, i1: nat, i2: nat, s': State)
    requires Inv(s) && Submit(s, b, block, write, i0, i1, i2, s')
    ensures Inv(s')
  {
    hide Inv, Submit, ChainOk, SlotOk, Rings, Indices, Buffers;
    SubmitRings(s, b, block, write, i0, i1, i2, s');
    forall h | h in s'.reqs ensures ChainOk(s', h) { SubmitChain(s, b, block, write, i0, i1, i2, s', h); }
    forall i: nat | i < NUM ensures SlotOk(s', i) { SubmitSlot(s, b, block, write, i0, i1, i2, s', i); }
    IsInv(s');
  }

  lemma IsInv(s: State)
    requires Sizes(s) && Indices(s) && Chains(s) && Slots(s) && Rings(s) && Buffers(s)
    ensures Inv(s)
  {
  }

  // The interrupt handler.

  /** The entry the handler reads is that of a request the device has completed, and its buffer is that request's. */
  lemma IntrEntry(s: State, s': State)
    requires Inv(s) && Intr(s, s')
    ensures s.r < s.u && s.used[s.usedIdx % NUM] == s.used[s.r % NUM] && UsedAt(s, s.r)
    ensures var h := s.used[s.usedIdx % NUM];
      h in s.reqs && s.reqs[h].phase == Used(s.r) && s.info[h].b == Some(s.reqs[h].b)
  {
    hide Slots, Buffers;
    WrapNum(s.r);
    assert UsedAt(s, s.r);
    assert ChainOk(s, s.used[s.r % NUM]);
  }

  lemma IntrChain(s: State, s': State, h: nat)
    requires Inv(s) && Intr(s, s') && h in s'.reqs
    ensures ChainOk(s', h)
  {
    IntrEntry(s, s');
    hide Slots, Rings, Indices;
    assert ChainOk(s, h);
  }

  lemma IntrSlot(s: State, s': State, i: nat)
    requires Inv(s) && Intr(s, s') && i < NUM
    ensures Sizes(s') && SlotOk(s', i)
  {
    hide Chains, Rings, Indices, Buffers;
    assert SlotOk(s, i);
  }

  /** What the handler and the device's steps do to the requests: one changes phase, from one that no other has. */
  ghost predicate Rephased(s: State, s': State, h: nat, ph: Phase) {
    && h in s.reqs && s'.reqs == s.reqs[h := s.reqs[h].(phase := ph)]
    && s'.free == s.free && s'.desc == s.desc && s'.own == s.own && s'.avail == s.avail
  }

  lemma RephasedSlot(s: State, s': State, h: nat, ph: Phase, i: nat)
    requires Sizes(s) && Sizes(s') && Rephased(s, s', h, ph) && i < NUM && SlotOk(s, i)
    ensures SlotOk(s', i)
  {
  }

  lemma RephasedBuffers(s: State, s': State, h: nat, ph: Phase)
    requires Buffers(s) && Rephased(s, s', h, ph)
    ensures Buffers(s')
  {
  }

  lemma RephasedAvail(s: State, s': State, h: nat, ph: Phase, n: nat)
    requires Sizes(s) && Sizes(s') && Rephased(s, s', h, ph) && AvailAt(s, n) && s.reqs[h].phase != Queued(n)
    ensures AvailAt(s', n)
  {
  }

  lemma RephasedUsed(s: State, s': State, h: nat, ph: Phase, n: nat)
    requires Sizes(s) && Sizes(s') && Rephased(s, s', h, ph) && UsedAt(s, n) && s.reqs[h].phase != Used(n)
    requires s'.used[n % NUM] == s.used[n % NUM]
    ensures UsedAt(s', n)
  {
  }

  lemma IntrRings(s: State, s': State)
    requires Inv(s) && Intr(s, s')
    ensures Sizes(s') && Indices(s') && Rings(s') && Buffers(s')
  {
    IntrEntry(s, s');
    WrapNum(s.r);
    var h := s.used[s.r % NUM];
    assert Rephased(s, s', h, Done);
    RephasedBuffers(s, s', h, Done);
    hide Chains, Slots, AvailAt, UsedAt, Buffers;
    forall n: nat | s'.d <= n < s'.a ensures AvailAt(s', n) {
      assert AvailAt(s, n);
      RephasedAvail(s, s', h, Done, n);
    }
    forall n: nat | s'.r <= n < s'.u ensures UsedAt(s', n) {
      assert UsedAt(s, n);
      RephasedUsed(s, s', h, Done, n);
    }
    forall g | g in s'.reqs ensures PhaseOk(s', g) {
      assert PhaseOk(s, g);
      IntrPhase(s, s', g);
    }
  }

  lemma IntrPhase(s: State, s': State, g: nat)
    requires Sizes(s) && Sizes(s') && s'.r == s.r + 1 && s'.u == s.u && s'.a == s.a && s'.d == s.d && s'.used == s.used
    requires Rephased(s, s', s.used[s.r % NUM], Done) && g in s.reqs && PhaseOk(s, g)
    ensures PhaseOk(s', g)
  {
  }

  lemma IntrKeeps(s: State, s': State)
    requires Inv(s) && Intr(s, s')
    ensures Inv(s')
  {
    hide Inv, Intr, ChainOk, SlotOk, Rings, Indices, Buffers;
    IntrRings(s, s');
    forall h | h in s'.reqs ensures ChainOk(s', h) { IntrChain(s, s', h); }
    forall i: nat | i < NUM ensures SlotOk(s', i) { IntrSlot(s, s', i); }
    IsInv(s');
  }

  // Freeing a finished chain.

  lemma FinishFacts(s: State, h: nat, s': State)
    requires Inv(s) && Finish(s, h, s')
    ensures ChainOk(s, h) && s.reqs[h].phase.Done? && s.desc[h].next == s.reqs[h].c1
    ensures s.desc[s.reqs[h].c1].next == s.reqs[h].c2
  {
    hide Slots, Rings, Buffers, Indices;
    assert ChainOk(s, h);
  }

  lemma Mark3Other<T>(q: seq<T>, i: nat, j: nat, k: nat, v: T, x: nat)
    requires i < |q| && j < |q| && k < |q| && x < |q| && x !in {i, j, k}
    ensures |Mark3(q, i, j, k, v)| == |q| && Mark3(q, i, j, k, v)[x] == q[x]
  {
  }

  /** A descriptor of another chain is left alone. */
  lemma FinishOther(s: State, h: nat, s': State, x: nat)
    requires Finish(s, h, s') && x < NUM && x !in {h, s.desc[h].next, s.desc[s.desc[h].next].next}
    ensures |s'.own| == |s'.desc| == NUM && s'.own[x] == s.own[x] && s'.desc[x] == s.desc[x]
  {
    hide Mark3;
    var c1 := s.desc[h].next;
    Mark3Other(s.own, h, c1, s.desc[c1].next, None, x);
    Mark3Other(s.desc, h, c1, s.desc[c1].next, CLEARED, x);
  }

  lemma FinishChain(s: State, h: nat, s': State, g: nat)
    requires Inv(s) && Finish(s, h, s') && g in s'.reqs
    ensures ChainOk(s', g)
  {
    FinishFacts(s, h, s');
    assert ChainOk(s, g);
    hide Slots, Rings, Indices, Chains, Buffers, Mark3;
    Slots3Apart(s, g, h);
    assert g in Slots3(s, g) && s.reqs[g].c1 in Slots3(s, g) && s.reqs[g].c2 in Slots3(s, g);
    FinishOther(s, h, s', g);
    FinishOther(s, h, s', s.reqs[g].c1);
    FinishOther(s, h, s', s.reqs[g].c2);
    FinishSizes(s, h, s');
  }

  lemma FinishSizes(s: State, h: nat, s': State)
    requires Sizes(s) && Finish(s, h, s')
    ensures Sizes(s')
  {
  }

  lemma FinishSlot(s: State, h: nat, s': State, i: nat)
    requires Inv(s) && Finish(s, h, s') && i < NUM
    ensures Sizes(s') && SlotOk(s', i)
  {
    FinishFacts(s, h, s');
    assert SlotOk(s, i);
    hide Chains, Rings, Indices, Buffers, Slots;
  }

  /** Only the request and what belongs to its chain goes. */
  ghost predicate Dropped(s: State, s': State, h: nat) {
    && Sizes(s) && Sizes(s') && h in s.reqs && s'.reqs == s.reqs - {h} && s'.avail == s.avail && s'.used == s.used
    && s'.availIdx == s.availIdx && s'.dev == s.dev && s'.usedEnd == s.usedEnd && s'.usedIdx == s.usedIdx
    && s'.a == s.a && s'.d == s.d && s'.u == s.u && s'.r == s.r
  }

  lemma FinishDrops(s: State, h: nat, s': State)
    requires Sizes(s) && Finish(s, h, s')
    ensures Dropped(s, s', h)
  {
  }

  lemma DroppedRings(s: State, s': State, h: nat)
    requires Dropped(s, s', h) && Indices(s) && Rings(s) && Buffers(s) && s.reqs[h].phase.Done?
    ensures Indices(s') && Rings(s') && Buffers(s')
  {
    forall n: nat | s'.d <= n < s'.a ensures AvailAt(s', n) { assert AvailAt(s, n); }
    forall n: nat | s'.r <= n < s'.u ensures UsedAt(s', n) { assert UsedAt(s, n); }
    forall g | g in s'.reqs ensures PhaseOk(s', g) { assert PhaseOk(s, g); }
  }

  lemma FinishRings(s: State, h: nat, s': State)
    requires Inv(s) && Finish(s, h, s')
    ensures Sizes(s') && Indices(s') && Rings(s') && Buffers(s')
  {
    FinishFacts(s, h, s');
    hide Chains, Slots, Finish, Indices, Rings, Buffers;
    FinishDrops(s, h, s');
    DroppedRings(s, s', h);
  }

  lemma FinishKeeps(s: State, h: nat, s': State)
    requires Inv(s) && Finish(s, h, s')
    ensures Inv(s')
  {
    hide Inv, Finish, ChainOk, SlotOk, Rings, Indices, Buffers;
    FinishRings(s, h, s');
    forall g | g in s'.reqs ensures ChainOk(s', g) { FinishChain(s, h, s', g); }
    forall i: nat | i < NUM ensures SlotOk(s', i) { FinishSlot(s, h, s', i); }
    IsInv(s');
  }

  // The device.

  lemma TakeEntry(s: State, s': State)
    requires Inv(s) && DevTake(s, s')
    ensures s.d < s.a && AvailAt(s, s.d) && Rephased(s, s', s.avail[s.d % NUM], Taken) && Sizes(s') && Indices(s')
    ensures s'.d == s.d + 1
  {
    hide Slots, Buffers, Chains;
    WrapNum(s.d);
    assert AvailAt(s, s.d);
  }

  lemma RephasedChain(s: State, s': State, h: nat, ph: Phase, g: nat)
    requires Sizes(s) && Sizes(s') && Rephased(s, s', h, ph) && g in s.reqs && ChainOk(s, g)
    requires !ph.Done? && !s.reqs[h].phase.Done? && s'.busy == s.busy
    requires forall i: nat | i < NUM :: s'.info[i].b == s.info[i].b
    ensures g in s'.reqs && ChainOk(s', g)
  {
  }

  lemma TakePhase(s: State, s': State, g: nat)
    requires Sizes(s) && Sizes(s') && Rephased(s, s', s.avail[s.d % NUM], Taken) && g in s.reqs && PhaseOk(s, g)
    requires s'.d == s.d + 1 && s'.r == s.r && s'.u == s.u && s'.a == s.a && s'.used == s.used
    ensures g in s'.reqs && PhaseOk(s', g)
  {
  }

  lemma TakeChain(s: State, s': State, g: nat)
    requires Inv(s) && DevTake(s, s') && g in s'.reqs
    ensures ChainOk(s', g) && PhaseOk(s', g)
  {
    TakeEntry(s, s');
    hide Rephased, AvailAt, ChainOk, PhaseOk;
    assert ChainOk(s, g) && PhaseOk(s, g);
    TakeOther(s, s.d);
    RephasedChain(s, s', s.avail[s.d % NUM], Taken, g);
    TakePhase(s, s', g);
  }

  lemma TakeKeeps(s: State, s': State)
    requires Inv(s) && DevTake(s, s')
    ensures Inv(s')
  {
    TakeEntry(s, s');
    var h := s.avail[s.d % NUM];
    RephasedBuffers(s, s', h, Taken);
    forall g | g in s'.reqs ensures ChainOk(s', g) && PhaseOk(s', g) { TakeChain(s, s', g); }
    hide AvailAt, UsedAt, Buffers, ChainOk, PhaseOk, SlotOk, Indices;
    forall i: nat | i < NUM ensures SlotOk(s', i) {
      assert SlotOk(s, i);
      RephasedSlot(s, s', h, Taken, i);
    }
    forall n: nat | s'.d <= n < s'.a ensures AvailAt(s', n) {
      assert AvailAt(s, n);
      TakeOther(s, n);
      RephasedAvail(s, s', h, Taken, n);
    }
    forall n: nat | s'.r <= n < s'.u ensures UsedAt(s', n) {
      assert UsedAt(s, n);
      TakeOther(s, n);
      RephasedUsed(s, s', h, Taken, n);
    }
  }

  lemma TakeOther(s: State, n: nat)
    requires Sizes(s) && AvailAt(s, s.d)
    ensures s.reqs[s.avail[s.d % NUM]].phase == Queued(s.d)
  {
  }

  /** The chain of h has gone into the used ring, as entry s.u. */
  ghost predicate Reported(s: State, s': State, h: nat) {
    && Sizes(s) && Sizes(s') && Rephased(s, s', h, Used(s.u)) && s.reqs[h].phase.Taken?
    && s'.used == s.used[s.u % NUM := h] && s'.usedEnd == (s.usedEnd + 1) % WRAP && s'.u == s.u + 1
    && s'.availIdx == s.availIdx && s'.dev == s.dev && s'.usedIdx == s.usedIdx
    && s'.a == s.a && s'.d == s.d && s'.r == s.r && s'.busy == s.busy
    && forall i: nat | i < NUM :: s'.info[i].b == s.info[i].b
  }

  lemma CompleteReports(s: State, h: nat, status: nat, junk: Block, s': State)
    requires Inv(s) && DevComplete(s, h, status, junk, s')
    ensures Reported(s, s', h)
  {
    hide Slots, Chains, Rings, Buffers, Carried;
    WrapNum(s.u);
  }

  lemma CompleteChain(s: State, s': State, h: nat, g: nat)
    requires Inv(s) && Reported(s, s', h) && g in s'.reqs
    ensures ChainOk(s', g)
  {
    assert ChainOk(s, g);
    hide Slots, Rings, Indices, Chains, Buffers, ChainOk;
    RephasedChain(s, s', h, Used(s.u), g);
  }

  lemma CompleteUsed(s: State, s': State, h: nat, n: nat)
    requires Reported(s, s', h) && s.u - s.r <= 2 && s.r <= n <= s.u && (n < s.u ==> UsedAt(s, n))
    ensures UsedAt(s', n)
  {
    if n < s.u {
      Positions(n, s.u);
    }
  }

  lemma CompletePhase(s: State, s': State, h: nat, g: nat)
    requires Reported(s, s', h) && s.u - s.r <= 2 && s.r <= s.u && g in s.reqs && PhaseOk(s, g)
    ensures g in s'.reqs && PhaseOk(s', g)
  {
    if s.reqs[g].phase.Used? {
      Positions(s.reqs[g].phase.n, s.u);
    }
  }

  lemma CompleteRings(s: State, s': State, h: nat)
    requires Inv(s) && Reported(s, s', h)
    ensures Indices(s') && Rings(s') && Buffers(s')
  {
    FewUnread(s);
    WrapNum(s.u);
    RephasedBuffers(s, s', h, Used(s.u));
    hide Chains, Slots, Buffers;
    forall n: nat | s'.d <= n < s'.a ensures AvailAt(s', n) { assert AvailAt(s, n); }
    forall n: nat | s'.r <= n < s'.u ensures UsedAt(s', n) {
      if n < s.u {
        assert UsedAt(s, n);
      }
      CompleteUsed(s, s', h, n);
    }
    forall g | g in s'.reqs ensures PhaseOk(s', g) {
      assert PhaseOk(s, g);
      CompletePhase(s, s', h, g);
    }
  }

  lemma CompleteKeeps(s: State, h: nat, status: nat, junk: Block, s': State)
    requires Inv(s) && DevComplete(s, h, status, junk, s')
    ensures Inv(s')
  {
    CompleteReports(s, h, status, junk, s');
    hide DevComplete, Rings, ChainOk, Indices, Buffers;
    CompleteRings(s, s', h);
    forall g | g in s'.reqs ensures ChainOk(s', g) { CompleteChain(s, s', h, g); }
    forall i: nat | i < NUM ensures SlotOk(s', i) {
      assert SlotOk(s, i);
      RephasedSlot(s, s', h, Used(s.u), i);
    }
  }

  lemma StoreKeeps(s: State, b: nat, data: Block, s': State)
    requires Inv(s) && StoreStep(s, b, data, s')
    ensures Inv(s')
  {
    forall h | h in s'.reqs ensures ChainOk(s', h) && PhaseOk(s', h) { assert ChainOk(s, h) && PhaseOk(s, h); }
    forall i: nat | i < NUM ensures SlotOk(s', i) { assert SlotOk(s, i); }
    forall n: nat | s'.d <= n < s'.a ensures AvailAt(s', n) { assert AvailAt(s, n); }
    forall n: nat | s'.r <= n < s'.u ensures UsedAt(s', n) { assert UsedAt(s, n); }
  }

  // ---------- runs

  ghost predicate Run(ts: seq<State>, es: seq<Event>) {
    |ts| == |es| + 1 && Boot(ts[0]) && forall n: nat | n < |es| :: Next(ts[n], es[n], ts[n + 1])
  }

  lemma StepKeeps(s: State, e: Event, s': State)
    requires Inv(s) && Next(s, e, s')
    ensures Inv(s')
  {
    hide Inv, Submit, Intr, Finish, DevTake, DevComplete, StoreStep;
    match e
    case DoSubmit(b, block, write, i0, i1, i2) => SubmitKeeps(s, b, block, write, i0, i1, i2, s');
    case DoIntr => IntrKeeps(s, s');
    case DoFinish(h) => FinishKeeps(s, h, s');
    case DoTake => TakeKeeps(s, s');
    case DoComplete(h, status, junk) => CompleteKeeps(s, h, status, junk, s');
    case DoStore(b, data) => StoreKeeps(s, b, data, s');
  }

  lemma {:induction false} RunInv(ts: seq<State>, es: seq<Event>, n: nat)
    requires Run(ts, es) && n <= |es|
    ensures Inv(ts[n])
  {
    hide Inv, Next;
    if n == 0 {
      BootInv(ts[0]);
    } else {
      RunInv(ts, es, n - 1);
      StepKeeps(ts[n - 1], es[n - 1], ts[n - 1 + 1]);
    }
  }

  /** The free descriptors and the three-descriptor chains of pending requests partition the NUM slots. */
  lemma Partition(ts: seq<State>, es: seq<Event>, n: nat)
    requires Run(ts, es) && n <= |es|
    ensures var s := ts[n];
      && |s.free| == NUM
      && (forall i: nat | i < NUM :: s.free[i] <==> Unchained(s, i))
      && (forall h | h in s.reqs :: |Slots3(s, h)| == 3 && forall i | i in Slots3(s, h) :: i < NUM)
      && (forall g, h | g in s.reqs && h in s.reqs && g != h :: Slots3(s, g) !! Slots3(s, h))
  {
    hide Next, Inv, Slots3, Unchained;
    RunInv(ts, es, n);
    var s := ts[n];
    assert Sizes(s) by { InvSizes(s); }
    forall i: nat | i < NUM ensures s.free[i] <==> Unchained(s, i) { FreeUnchained(s, i); }
    forall h | h in s.reqs ensures |Slots3(s, h)| == 3 && forall i | i in Slots3(s, h) :: i < NUM { ThreeSlots(s, h); }
    forall g, h | g in s.reqs && h in s.reqs && g != h ensures Slots3(s, g) !! Slots3(s, h) { ChainsApart(s, g, h); }
  }

  /** Descriptor i is in no pending chain. */
  ghost predicate Unchained(s: State, i: nat) {
    forall f | f in s.reqs :: i !in Slots3(s, f)
  }

  lemma InvSizes(s: State)
    requires Inv(s)
    ensures Sizes(s)
  {
  }

  lemma FreeUnchained(s: State, i: nat)
    requires Inv(s) && i < NUM
    ensures s.free[i] <==> Unchained(s, i)
  {
    assert SlotOk(s, i);
    hide Rings, Indices, Buffers, Slots;
    forall f | f in s.reqs && s.free[i] ensures i !in Slots3(s, f) {
      assert ChainOk(s, f);
    }
  }

  lemma ThreeSlots(s: State, h: nat)
    requires Inv(s) && h in s.reqs
    ensures |Slots3(s, h)| == 3 && forall i | i in Slots3(s, h) :: i < NUM
  {
    assert ChainOk(s, h);
    hide Rings, Indices, Buffers, Slots, Chains;
    Slots3Size(s, h);
  }

  lemma ChainsApart(s: State, g: nat, h: nat)
    requires Inv(s) && g in s.reqs && h in s.reqs && g != h
    ensures Slots3(s, g) !! Slots3(s, h)
  {
    assert ChainOk(s, g) && ChainOk(s, h);
    hide Rings, Indices, Buffers, Slots, Chains;
    Slots3Apart(s, g, h);
  }

  /** At most two entries of either ring are unread, and equal indices mean that none is, whatever the wrap. */
  lemma NoOverwrite(ts: seq<State>, es: seq<Event>, n: nat)
    requires Run(ts, es) && n <= |es|
    ensures ts[n].a - ts[n].d <= 2 && ts[n].u - ts[n].r <= 2
    ensures ts[n].dev == ts[n].availIdx <==> ts[n].d == ts[n].a
    ensures ts[n].usedIdx == ts[n].usedEnd <==> ts[n].r == ts[n].u
  {
    hide Next;
    RunInv(ts, es, n);
    FewUnread(ts[n]);
  }

  /** A step overwrites no unread entry of either ring. */
  lemma StepRings(s: State, e: Event, s': State)
    requires Inv(s) && Next(s, e, s')
    ensures s.d <= s'.d && s.a <= s'.a && s.r <= s'.r && s.u <= s'.u && |s.avail| == |s'.avail| == NUM
    ensures |s.used| == |s'.used| == NUM
    ensures forall m: nat | s.d <= m < s.a :: s'.avail[m % NUM] == s.avail[m % NUM]
    ensures forall m: nat | s.r <= m < s.u :: s'.used[m % NUM] == s.used[m % NUM]
  {
    FewUnread(s);
    WrapNum(s.a);
    WrapNum(s.u);
    hide Chains, Slots, Buffers, Rings;
    forall m: nat | s.d <= m < s.a ensures s'.avail[m % NUM] == s.avail[m % NUM] { Positions(m, s.a); }
    forall m: nat | s.r <= m < s.u ensures s'.used[m % NUM] == s.used[m % NUM] { Positions(m, s.u); }
  }

  /** What is in a ring is there until it is read: entry m of the available ring, put in by step n, is the same in every
      later state in which the device has not come to it, and so is entry m of the used ring until the handler does. */
  lemma {:induction false} EntriesStay(ts: seq<State>, es: seq<Event>, n: nat, k: nat, m: nat)
    requires Run(ts, es) && n <= k <= |es|
    ensures ts[n].a <= ts[k].a && ts[n].u <= ts[k].u && ts[n].d <= ts[k].d && ts[n].r <= ts[k].r
    ensures |ts[n].avail| == |ts[k].avail| == |ts[n].used| == |ts[k].used| == NUM
    ensures ts[k].d <= m < ts[n].a ==> ts[k].avail[m % NUM] == ts[n].avail[m % NUM]
    ensures ts[k].r <= m < ts[n].u ==> ts[k].used[m % NUM] == ts[n].used[m % NUM]
    decreases k
  {
    hide Next, Inv;
    RunInv(ts, es, n);
    InvSizes(ts[n]);
    if n < k {
      EntriesStay(ts, es, n, k - 1, m);
      RunInv(ts, es, k - 1);
      assert Next(ts[k - 1], es[k - 1], ts[k - 1 + 1]);
      StepRings(ts[k - 1], es[k - 1], ts[k]);
    }
  }

  /** A buffer is released only by the completion of its own chain: the handler's step clears b->disk for exactly the
      buffer of a request whose chain the device has put in the used ring. */
  lemma OwnCompletion(ts: seq<State>, es: seq<Event>, n: nat, b: nat)
    requires Run(ts, es) && n < |es| && b in ts[n].busy && b !in ts[n + 1].busy
    ensures es[n].DoIntr? && ts[n].r < ts[n].u
    ensures |ts[n].used| == NUM
    ensures var h := ts[n].used[ts[n].r % NUM];
      h in ts[n].reqs && ts[n].reqs[h].b == b && ts[n].reqs[h].phase == Used(ts[n].r)
    ensures ts[n + 1].busy == ts[n].busy - {b}
  {
    hide Inv;
    RunInv(ts, es, n);
    var s, s' := ts[n], ts[n + 1];
    assert Next(s, es[n], s');
    hide Run, Alloc3, Chained;
    if es[n].DoIntr? {
      IntrEntry(s, s');
    }
  }

  /** When a finished chain is freed, its descriptors are in range and not free, so free_desc does not panic. */
  lemma FreeDescSafe(ts: seq<State>, es: seq<Event>, n: nat)
    requires Run(ts, es) && n < |es| && es[n].DoFinish?
    ensures var s, h := ts[n], es[n].h;
      && h in s.reqs && |Slots3(s, h)| == 3 && |s.free| == NUM
      && forall i | i in Slots3(s, h) :: i < NUM && !s.free[i]
  {
    hide Inv;
    RunInv(ts, es, n);
    var s, h := ts[n], es[n].h;
    assert Next(s, es[n], ts[n + 1]);
    hide Run;
    FinishFacts(s, h, ts[n + 1]);
    Slots3Size(s, h);
    forall i | i in Slots3(s, h) ensures !s.free[i] {
      OwnedNotFree(s, i);
    }
  }

  lemma OwnedNotFree(s: State, i: nat)
    requires Inv(s) && i < NUM && s.own[i].Some?
    ensures !s.free[i]
  {
    assert SlotOk(s, i);
  }
}
