/** The logging system of log.c over the buffer cache of bio.c, with any number of processes of the
    process table interleaved at lock granularity: every step is one critical section of bcache.lock,
    a sleep lock or log.lock, or one access to a buffer its process holds, or one disk write.

    `fs` records the content last stored in each block and `durable` what fs was at the last commit
    point; no step depends on either. */
module WalSystem {
  import opened Options
  import opened Blocks
  import opened WriteAheadLog
  import opened Bio
  import opened Log

  const NPROC := 64
  const ROOTDEV: uint := 1

  /** Where the committing process is; `written` says that the block at tail is already home. */
  datatype Pc = Idle | Logging(tail: nat) | Installing(tail: nat, written: bool) | Done

  datatype State = State(
    disk: Disk,
    cache: Cache,
    users: seq<multiset<nat>>,   // for each buffer, the processes that got it and have not put it back
    lh: seq<uint>,               // log.lh
    outstanding: nat,            // log.outstanding
    committer: Option<nat>,      // the process that set log.committing
    pc: Pc,
    ops: seq<Option<nat>>,       // for each process inside an operation, the blocks it added to the log
    dirty: set<uint>,            // blocks changed by their holder and not yet passed to log_write
    fs: Disk,
    durable: Disk)

  predicate Active(ops: seq<Option<nat>>, p: nat) {
    p < |ops| && ops[p].Some?
  }

  predicate Holds(s: State, p: nat, i: nat) {
    i < NBUF && i < |s.cache.slots| && s.cache.slots[i].holder == Some(p) && s.cache.slots[i].valid
  }

  predicate HoldsBlock(s: State, p: nat, i: nat, x: uint) {
    Holds(s, p, i) && s.cache.slots[i].blockno == x
  }

  // ---------- steps of the buffer cache

  /** bget: process p gets a reference to the buffer of block x. */
  ghost predicate GetStep(L: Layout, s: State, s': State, p: nat, x: uint, i: nat) {
    && x < L.blocks && Wf(s.cache) && i < |s.users|
    && Get(s.cache, ROOTDEV, x).Some? && Get(s.cache, ROOTDEV, x).value.1 == i
    && s' == s.(cache := Get(s.cache, ROOTDEV, x).value.0, users := s.users[i := s.users[i] + multiset{p}])
  }

  /** acquiresleep, when the lock is free. */
  ghost predicate LockStep(s: State, s': State, p: nat, i: nat) {
    && Wf(s.cache) && i < NBUF && i < |s.users| && p in s.users[i] && s.cache.slots[i].holder == None
    && s' == s.(cache := Hold(s.cache, i, Some(p)))
  }

  /** The disk read of bread. */
  ghost predicate FillStep(s: State, s': State, p: nat, i: nat) {
    && Wf(s.cache) && i < NBUF && s.cache.slots[i].holder == Some(p) && !s.cache.slots[i].valid
    && s.cache.slots[i].blockno < |s.disk|
    && s' == s.(cache := s.cache.(slots := s.cache.slots[i :=
           s.cache.slots[i].(valid := true, data := s.disk[s.cache.slots[i].blockno])]))
  }

  /** releasesleep; a client passes every buffer it changed to log_write first. */
  ghost predicate UnlockStep(s: State, s': State, p: nat, i: nat) {
    && Wf(s.cache) && i < NBUF && s.cache.slots[i].holder == Some(p)
    && (s.cache.slots[i].valid ==> s.cache.slots[i].blockno !in s.dirty)
    && s' == s.(cache := Hold(s.cache, i, None))
  }

  /** The rest of brelse. */
  ghost predicate PutStep(s: State, s': State, p: nat, i: nat) {
    && Wf(s.cache) && i < NBUF && i < |s.users| && p in s.users[i]
    && s.cache.slots[i].holder != Some(p) && s.cache.slots[i].refcnt > 0
    && s' == s.(cache := Put(s.cache, i), users := s.users[i := s.users[i] - multiset{p}])
  }

  // ---------- steps of an operation

  /** begin_op, when it need not sleep. */
  ghost predicate BeginOp(s: State, s': State, p: nat) {
    && s.committer == None && |s.lh| + (s.outstanding + 1) * MAXOPBLOCKS <= LOGSIZE
    && p < |s.ops| && s.ops[p] == None
    && s' == s.(outstanding := s.outstanding + 1, ops := s.ops[p := Some(0)])
  }

  /** A process inside an operation changes a home block it holds. */
  ghost predicate StoreStep(L: Layout, s: State, s': State, p: nat, i: nat, data: Block) {
    && Wf(s.cache) && Holds(s, p, i) && Active(s.ops, p)
    && L.Home(s.cache.slots[i].blockno) && s.cache.slots[i].blockno < |s.fs|
    && var x := s.cache.slots[i].blockno;
       s' == s.(cache := SetData(s.cache, i, data), fs := s.fs[x := data], dirty := s.dirty + {x})
  }

  /** log_write panics with "too big a transaction". */
  predicate TooBig(L: Layout, s: State) {
    |s.lh| >= LOGSIZE || |s.lh| >= L.size - 1
  }

  /** log_write: absorb the block, or add it to the log and pin its buffer. */
  ghost predicate LogWriteStep(L: Layout, s: State, s': State, p: nat, i: nat) {
    && Wf(s.cache) && Holds(s, p, i) && Active(s.ops, p) && !TooBig(L, s)
    && L.Home(s.cache.slots[i].blockno)
    && var x := s.cache.slots[i].blockno;
       if x in s.lh then s' == s.(dirty := s.dirty - {x})
       else s.ops[p].value < MAXOPBLOCKS
            && s' == s.(cache := AddRef(s.cache, i, 1), lh := s.lh + [x], dirty := s.dirty - {x},
                        ops := s.ops[p := Some(s.ops[p].value + 1)])
  }

  /** end_op up to its first release of log.lock: the last operation becomes the committer. */
  ghost predicate EndOp(s: State, s': State, p: nat) {
    && Active(s.ops, p) && s.outstanding > 0
    && (forall i | 0 <= i < |s.cache.slots| && s.cache.slots[i].holder == Some(p) && s.cache.slots[i].valid ::
          s.cache.slots[i].blockno !in s.dirty)
    && s' == s.(ops := s.ops[p := None], outstanding := s.outstanding - 1,
                committer := if s.outstanding == 1 then Some(p) else s.committer,
                pc := if s.outstanding > 1 then s.pc else if |s.lh| > 0 then Logging(0) else Done)
  }

  // ---------- steps of commit

  /** One pass of write_log, its two buffers held. */
  ghost predicate CopyToLog(L: Layout, s: State, s': State, p: nat, to: nat, from: nat) {
    && Wf(s.cache) && s.committer == Some(p) && s.pc.Logging? && s.pc.tail < |s.lh|
    && L.start + 1 + s.pc.tail < UINT_LIMIT
    && HoldsBlock(s, p, to, L.start + 1 + s.pc.tail) && HoldsBlock(s, p, from, s.lh[s.pc.tail])
    && s' == WriteThrough(s, to, s.cache.slots[from].data).(pc := Logging(s.pc.tail + 1))
  }

  /** Change a held buffer and write it to disk. */
  function WriteThrough(s: State, i: nat, data: Block): State
    requires Wf(s.cache) && i < NBUF
  {
    var x := s.cache.slots[i].blockno;
    s.(cache := SetData(s.cache, i, data), disk := ApplyWrite(s.disk, Write(x, data)),
       fs := ApplyWrite(s.fs, Write(x, data)))
  }

  /** write_head with the logged blocks: the commit point. */
  ghost predicate WriteHeader(L: Layout, s: State, s': State, p: nat, b: nat) {
    && Wf(s.cache) && s.committer == Some(p) && s.pc == Logging(|s.lh|) && |s.lh| <= LOGSIZE && L.start < UINT_LIMIT
    && HoldsBlock(s, p, b, L.start)
    && s' == WriteThrough(s, b, SetHead(s.cache.slots[b].data, s.lh)).(pc := Installing(0, false), durable := s.fs)
  }

  /** One pass of install_trans up to its bwrite, its two buffers held. */
  ghost predicate InstallHome(L: Layout, s: State, s': State, p: nat, l: nat, d: nat) {
    && Wf(s.cache) && s.committer == Some(p) && s.pc.Installing? && !s.pc.written && s.pc.tail < |s.lh|
    && L.start + 1 + s.pc.tail < UINT_LIMIT
    && HoldsBlock(s, p, l, L.start + 1 + s.pc.tail) && HoldsBlock(s, p, d, s.lh[s.pc.tail])
    && s' == WriteThrough(s, d, s.cache.slots[l].data).(pc := Installing(s.pc.tail, true))
  }

  /** bunpin of the installed block. */
  ghost predicate Unpin(s: State, s': State, p: nat, d: nat) {
    && Wf(s.cache) && s.committer == Some(p) && s.pc.Installing? && s.pc.written && s.pc.tail < |s.lh|
    && HoldsBlock(s, p, d, s.lh[s.pc.tail]) && s.cache.slots[d].refcnt > 0
    && s' == s.(cache := AddRef(s.cache, d, -1), pc := Installing(s.pc.tail + 1, false))
  }

  /** write_head with lh.n = 0: the log is empty again. */
  ghost predicate ClearHeader(L: Layout, s: State, s': State, p: nat, b: nat) {
    && Wf(s.cache) && s.committer == Some(p) && s.pc == Installing(|s.lh|, false) && L.start < UINT_LIMIT
    && HoldsBlock(s, p, b, L.start)
    && s' == WriteThrough(s, b, SetHead(s.cache.slots[b].data, [])).(pc := Done, lh := [])
  }

  /** The end of end_op. */
  ghost predicate CommitDone(s: State, s': State, p: nat) {
    && s.committer == Some(p) && s.pc == Done
    && s' == s.(committer := None, pc := Idle)
  }

  // ---------- what every step keeps

  function Unpinned(s: State): nat {
    if s.pc.Installing? then s.pc.tail else 0
  }

  /** The blocks that log_write pinned and commit has not unpinned. */
  ghost function Pins(s: State): set<uint> {
    Rest(s.lh, Unpinned(s))
  }

  ghost predicate Caches(s: Slot, x: uint) {
    s.valid && s.blockno == x
  }

  /** A buffer has one reference per user and one if its block is pinned; only a user holds it;
      it shows the current content; and a changed buffer is held by an active operation. */
  ghost predicate SlotOk(L: Layout, s: Slot, users: multiset<nat>, pins: set<uint>, dirty: set<uint>, fs: Disk,
                         ops: seq<Option<nat>>) {
    && s.refcnt == |users| + Count(s.valid && s.blockno in pins)
    && (s.holder.Some? ==> s.holder.value in users)
    && (s.dev != 0 ==> s.dev == ROOTDEV && s.blockno < |fs|)
    && (s.valid ==> s.dev != 0 && s.data == fs[s.blockno])
    && (s.valid && s.blockno in dirty ==> s.holder.Some? && Active(ops, s.holder.value) && L.Home(s.blockno))
    && (s.refcnt > 0 ==> s.dev != 0)
  }

  ghost predicate Cached(c: Cache, x: uint)
    requires Wf(c)
  {
    exists i :: 0 <= i < NBUF && Caches(c.slots[i], x)
  }

  /** The cache refines the plain block map fs: what is not pinned or being changed is on the disk,
      and what is, is cached. */
  ghost predicate CacheOk(L: Layout, s: State) {
    && CacheInv(s.cache) && |s.users| == NBUF && |s.fs| == |s.disk| == |s.durable| == L.blocks && L.Valid()
    && (forall i | 0 <= i < NBUF :: SlotOk(L, s.cache.slots[i], s.users[i], Pins(s), s.dirty, s.fs, s.ops))
    && (forall x | x in Pins(s) || x in s.dirty :: Cached(s.cache, x))
    && (forall x: uint | x < L.blocks && x !in Pins(s) && x !in s.dirty :: s.disk[x] == s.fs[x])
  }

  // ---------- one buffer changes

  /** Replacing one buffer that keeps the pinned and changed blocks it caches. */
  lemma ReplaceSlot(L: Layout, s: State, c: Cache, users: seq<multiset<nat>>, i: nat)
    requires CacheOk(L, s) && CacheInv(c) && i < NBUF && |users| == NBUF
    requires forall j | 0 <= j < NBUF && j != i :: c.slots[j] == s.cache.slots[j] && users[j] == s.users[j]
    requires SlotOk(L, c.slots[i], users[i], Pins(s), s.dirty, s.fs, s.ops)
    requires forall x | x in Pins(s) || x in s.dirty :: Caches(s.cache.slots[i], x) ==> Caches(c.slots[i], x)
    ensures CacheOk(L, s.(cache := c, users := users))
  {
    var s' := s.(cache := c, users := users);
    assert Pins(s') == Pins(s);
    forall j | 0 <= j < NBUF ensures SlotOk(L, c.slots[j], users[j], Pins(s'), s'.dirty, s'.fs, s'.ops) {
      if j != i {
        assert SlotOk(L, s.cache.slots[j], s.users[j], Pins(s), s.dirty, s.fs, s.ops);
      }
    }
    forall x | x in Pins(s') || x in s'.dirty ensures Cached(c, x) {
      var j :| 0 <= j < NBUF && Caches(s.cache.slots[j], x);
      assert Caches(c.slots[j], x);
    }
  }

  lemma GetOk(L: Layout, s: State, s': State, p: nat, x: uint, i: nat)
    requires CacheOk(L, s) && GetStep(L, s, s', p, x, i)
    ensures CacheOk(L, s')
  {
    var c := s'.cache;
    GetKeepsInv(s.cache, ROOTDEV, x);
    assert SlotOk(L, s.cache.slots[i], s.users[i], Pins(s), s.dirty, s.fs, s.ops);
    if Lookup(s.cache, ROOTDEV, x).None? {
      assert s.cache.slots[i].refcnt == 0 && |s.users[i]| == 0;
      assert s.users[i] == multiset{};
    }
    ReplaceSlot(L, s, c, s'.users, i);
  }

  lemma LockOk(L: Layout, s: State, s': State, p: nat, i: nat)
    requires CacheOk(L, s) && LockStep(s, s', p, i)
    ensures CacheOk(L, s')
  {
    assert SlotOk(L, s.cache.slots[i], s.users[i], Pins(s), s.dirty, s.fs, s.ops);
    assert |s.users[i]| > 0;
    SlotKeepsInv(s.cache, i, s'.cache.slots[i]);
    ReplaceSlot(L, s, s'.cache, s.users, i);
  }

  /** A buffer that is not valid yet is the only one for its block, so the block is clean. */
  lemma InvalidIsClean(L: Layout, s: State, i: nat)
    requires CacheOk(L, s) && i < NBUF && !s.cache.slots[i].valid && s.cache.slots[i].dev != 0
    ensures var x := s.cache.slots[i].blockno;
      x < L.blocks && x !in Pins(s) && x !in s.dirty && s.disk[x] == s.fs[x]
  {
    var x := s.cache.slots[i].blockno;
    assert SlotOk(L, s.cache.slots[i], s.users[i], Pins(s), s.dirty, s.fs, s.ops);
    forall j | 0 <= j < NBUF ensures !Caches(s.cache.slots[j], x) {
      assert SlotOk(L, s.cache.slots[j], s.users[j], Pins(s), s.dirty, s.fs, s.ops);
      OneBuffer(s.cache, ROOTDEV, x, i, j);
    }
    assert !Cached(s.cache, x);
  }

  lemma FillOk(L: Layout, s: State, s': State, p: nat, i: nat)
    requires CacheOk(L, s) && FillStep(s, s', p, i)
    ensures CacheOk(L, s')
  {
    assert SlotOk(L, s.cache.slots[i], s.users[i], Pins(s), s.dirty, s.fs, s.ops);
    assert |s.users[i]| > 0;
    InvalidIsClean(L, s, i);
    SlotKeepsInv(s.cache, i, s'.cache.slots[i]);
    ReplaceSlot(L, s, s'.cache, s.users, i);
  }

  lemma UnlockOk(L: Layout, s: State, s': State, p: nat, i: nat)
    requires CacheOk(L, s) && UnlockStep(s, s', p, i)
    ensures CacheOk(L, s')
  {
    assert SlotOk(L, s.cache.slots[i], s.users[i], Pins(s), s.dirty, s.fs, s.ops);
    SlotKeepsInv(s.cache, i, s'.cache.slots[i]);
    ReplaceSlot(L, s, s'.cache, s.users, i);
  }

  lemma PutOk(L: Layout, s: State, s': State, p: nat, i: nat)
    requires CacheOk(L, s) && PutStep(s, s', p, i)
    ensures CacheOk(L, s')
  {
    assert SlotOk(L, s.cache.slots[i], s.users[i], Pins(s), s.dirty, s.fs, s.ops);
    var h := s.cache.slots[i].holder;
    assert h.Some? ==> h.value in s.users[i] - multiset{p};
    assert s.cache.slots[i].refcnt == 1 ==> |s.users[i] - multiset{p}| == 0;
    PutKeepsInv(s.cache, i);
    ReplaceSlot(L, s, s'.cache, s'.users, i);
  }

  // ---------- blocks change

  /** A held buffer changes together with fs; the disk follows or the block becomes dirty. */
  lemma ChangeBlock(L: Layout, s: State, i: nat, data: Block, disk: Disk, dirty: set<uint>)
    requires CacheOk(L, s) && i < NBUF && s.cache.slots[i].valid && |disk| == L.blocks
    requires var x := s.cache.slots[i].blockno;
      && (forall y: uint | y < L.blocks && y != x :: disk[y] == s.disk[y])
      && ((disk[x] == data && dirty == s.dirty)
          || (disk == s.disk && dirty == s.dirty + {x} && L.Home(x)
              && s.cache.slots[i].holder.Some? && Active(s.ops, s.cache.slots[i].holder.value)))
    ensures s.cache.slots[i].blockno < |s.fs|
    ensures CacheOk(L, s.(cache := SetData(s.cache, i, data), fs := s.fs[s.cache.slots[i].blockno := data],
                          disk := disk, dirty := dirty))
  {
    var x := s.cache.slots[i].blockno;
    assert SlotOk(L, s.cache.slots[i], s.users[i], Pins(s), s.dirty, s.fs, s.ops);
    var s' := s.(cache := SetData(s.cache, i, data), fs := s.fs[x := data], disk := disk, dirty := dirty);
    SlotKeepsInv(s.cache, i, s'.cache.slots[i]);
    assert Pins(s') == Pins(s);
    forall j | 0 <= j < NBUF
      ensures SlotOk(L, s'.cache.slots[j], s.users[j], Pins(s), dirty, s'.fs, s.ops)
    {
      assert SlotOk(L, s.cache.slots[j], s.users[j], Pins(s), s.dirty, s.fs, s.ops);
      OneBuffer(s.cache, ROOTDEV, x, i, j);
    }
    forall y | y in Pins(s') || y in dirty ensures Cached(s'.cache, y) {
      if y == x {
        assert Caches(s'.cache.slots[i], y);
      } else {
        var j :| 0 <= j < NBUF && Caches(s.cache.slots[j], y);
        assert Caches(s'.cache.slots[j], y);
      }
    }
  }

  lemma StoreOk(L: Layout, s: State, s': State, p: nat, i: nat, data: Block)
    requires CacheOk(L, s) && StoreStep(L, s, s', p, i, data)
    ensures CacheOk(L, s')
  {
    ChangeBlock(L, s, i, data, s.disk, s.dirty + {s.cache.slots[i].blockno});
  }

  lemma WriteThroughOk(L: Layout, s: State, i: nat, data: Block)
    requires CacheOk(L, s) && i < NBUF && s.cache.slots[i].valid
    ensures CacheOk(L, WriteThrough(s, i, data)) && s.cache.slots[i].blockno < L.blocks
  {
    var x := s.cache.slots[i].blockno;
    assert SlotOk(L, s.cache.slots[i], s.users[i], Pins(s), s.dirty, s.fs, s.ops);
    ChangeBlock(L, s, i, data, s.disk[x := data], s.dirty);
  }

  // ---------- pins change

  /** Buffer i of block x gains or loses the reference that stands for its pin. */
  lemma RepinOk(L: Layout, s: State, i: nat, c: Cache, s': State)
    requires CacheOk(L, s) && i < NBUF && s.cache.slots[i].valid && CacheInv(c)
    requires var x := s.cache.slots[i].blockno;
      && c.slots == s.cache.slots[i := c.slots[i]] && c.slots[i] == s.cache.slots[i].(refcnt := c.slots[i].refcnt)
      && s'.cache == c && s'.disk == s.disk && s'.fs == s.fs && s'.users == s.users && |s'.durable| == L.blocks
      && c.slots[i].refcnt == |s.users[i]| + Count(x in Pins(s'))
      && (forall y: uint | y != x :: (y in Pins(s') <==> y in Pins(s)) && (y in s'.dirty <==> y in s.dirty))
      && (x in s'.dirty ==> x in s.dirty)
      && (x !in Pins(s') && x !in s'.dirty ==> s.disk[x] == s.fs[x])
    requires forall q: nat | Active(s.ops, q) :: Active(s'.ops, q)
    ensures CacheOk(L, s')
  {
    var x := s.cache.slots[i].blockno;
    assert SlotOk(L, s.cache.slots[i], s.users[i], Pins(s), s.dirty, s.fs, s.ops);
    forall j | 0 <= j < NBUF ensures SlotOk(L, c.slots[j], s.users[j], Pins(s'), s'.dirty, s.fs, s'.ops) {
      assert SlotOk(L, s.cache.slots[j], s.users[j], Pins(s), s.dirty, s.fs, s.ops);
      OneBuffer(s.cache, ROOTDEV, x, i, j);
    }
    forall y | y in Pins(s') || y in s'.dirty ensures Cached(c, y) {
      if y == x {
        assert Caches(c.slots[i], y);
      } else {
        var j :| 0 <= j < NBUF && Caches(s.cache.slots[j], y);
        assert Caches(c.slots[j], y);
      }
    }
  }

  lemma RestAppend(bs: seq<uint>, x: uint)
    ensures Rest(bs + [x], 0) == Rest(bs, 0) + {x}
  {
    forall y: uint | y in Rest(bs, 0) + {x} ensures y in Rest(bs + [x], 0) {
      if y == x {
        assert (bs + [x])[|bs|] == x;
      } else {
        var i :| 0 <= i < |bs| && bs[i] == y;
        assert (bs + [x])[i] == y;
      }
    }
  }

  lemma LogWriteOk(L: Layout, s: State, s': State, p: nat, i: nat)
    requires CacheOk(L, s) && s.pc == Idle && LogWriteStep(L, s, s', p, i)
    ensures CacheOk(L, s')
  {
    var x := s.cache.slots[i].blockno;
    assert SlotOk(L, s.cache.slots[i], s.users[i], Pins(s), s.dirty, s.fs, s.ops);
    if x !in s.lh {
      RestAppend(s.lh, x);
    }
    assert Pins(s') == Pins(s) + {x};
    SlotKeepsInv(s.cache, i, s'.cache.slots[i]);
    RepinOk(L, s, i, s'.cache, s');
  }

  lemma UnpinOk(L: Layout, s: State, s': State, p: nat, d: nat)
    requires CacheOk(L, s) && NoDuplicates(s.lh) && Unpin(s, s', p, d)
    requires s.lh[s.pc.tail] < L.blocks && s.disk[s.lh[s.pc.tail]] == s.fs[s.lh[s.pc.tail]]
    ensures CacheOk(L, s')
  {
    RestStep(s.lh, s.pc.tail);
    assert SlotOk(L, s.cache.slots[d], s.users[d], Pins(s), s.dirty, s.fs, s.ops);
    assert s'.cache.slots[d].refcnt == |s.users[d]| && |s.users[d]| > 0;
    SlotKeepsInv(s.cache, d, s'.cache.slots[d]);
    RepinOk(L, s, d, s'.cache, s');
  }

  // ---------- reservation

  function ActiveCount(ops: seq<Option<nat>>): nat {
    if ops == [] then 0 else ActiveCount(ops[..|ops|-1]) + Count(ops[|ops|-1].Some?)
  }

  /** The log blocks that active operations may still add. */
  function Unspent(ops: seq<Option<nat>>): int {
    if ops == [] then 0
    else Unspent(ops[..|ops|-1]) + (if ops[|ops|-1].Some? then MAXOPBLOCKS - ops[|ops|-1].value else 0)
  }

  lemma {:induction false} SetOp(ops: seq<Option<nat>>, p: nat, o: Option<nat>)
    requires p < |ops|
    ensures ActiveCount(ops[p := o]) == ActiveCount(ops) - Count(ops[p].Some?) + Count(o.Some?)
    ensures Unspent(ops[p := o]) == Unspent(ops) - (if ops[p].Some? then MAXOPBLOCKS - ops[p].value else 0)
                                    + (if o.Some? then MAXOPBLOCKS - o.value else 0)
  {
    var n := |ops| - 1;
    if p == n {
      assert ops[p := o][..n] == ops[..n];
    } else {
      SetOp(ops[..n], p, o);
      assert ops[p := o][..n] == ops[..n][p := o];
    }
  }

  lemma {:induction false} ActiveCounts(ops: seq<Option<nat>>, p: nat)
    requires Active(ops, p)
    ensures ActiveCount(ops) > 0
  {
    if p < |ops| - 1 {
      ActiveCounts(ops[..|ops|-1], p);
    }
  }

  lemma {:induction false} UnspentBounds(ops: seq<Option<nat>>)
    requires forall p: nat | Active(ops, p) :: ops[p].value <= MAXOPBLOCKS
    ensures 0 <= Unspent(ops) <= MAXOPBLOCKS * ActiveCount(ops)
  {
    if ops != [] {
      var rest := ops[..|ops|-1];
      forall p: nat | Active(rest, p) ensures rest[p].value <= MAXOPBLOCKS {
        assert Active(ops, p);
      }
      assert ops[|ops|-1].Some? ==> Active(ops, |ops| - 1);
      UnspentBounds(rest);
    }
  }

  lemma UnspentIncludes(ops: seq<Option<nat>>, p: nat)
    requires Active(ops, p) && forall q: nat | Active(ops, q) :: ops[q].value <= MAXOPBLOCKS
    ensures Unspent(ops) >= MAXOPBLOCKS - ops[p].value
  {
    SetOp(ops, p, None);
    UnspentBounds(ops[p := None]);
  }

  /** The log never overflows, holds each home block once, and is committed only between operations. */
  ghost predicate LogOk(L: Layout, s: State) {
    && Loggable(L, s.lh) && NoDuplicates(s.lh)
    && |s.ops| == NPROC && s.outstanding == ActiveCount(s.ops)
    && (forall p: nat | Active(s.ops, p) :: s.ops[p].value <= MAXOPBLOCKS)
    && |s.lh| + Unspent(s.ops) <= LOGSIZE
    && (s.committer.Some? ==> s.outstanding == 0)
    && (s.committer.None? <==> s.pc == Idle)
    && (s.outstanding == 0 ==> s.dirty == {})
    && (s.outstanding == 0 && s.committer.None? ==> s.lh == [])
  }

  lemma BeginOk(L: Layout, s: State, s': State, p: nat)
    requires LogOk(L, s) && BeginOp(s, s', p)
    ensures LogOk(L, s')
  {
    SetOp(s.ops, p, Some(0));
    UnspentBounds(s.ops);
  }

  lemma LogWriteKeepsLog(L: Layout, s: State, s': State, p: nat, i: nat)
    requires LogOk(L, s) && LogWriteStep(L, s, s', p, i)
    ensures LogOk(L, s') && s.pc == Idle
  {
    ActiveCounts(s.ops, p);
    assert s.pc == Idle;
    if s.cache.slots[i].blockno !in s.lh {
      SetOp(s.ops, p, Some(s.ops[p].value + 1));
    }
  }

  /** When the last operation ends, every changed block has been logged. */
  lemma EndKeepsLog(L: Layout, s: State, s': State, p: nat)
    requires LogOk(L, s) && CacheOk(L, s) && EndOp(s, s', p)
    ensures LogOk(L, s')
  {
    SetOp(s.ops, p, None);
    UnspentIncludes(s.ops, p);
    forall x | x in s.dirty ensures s'.outstanding > 0 {
      var i :| 0 <= i < NBUF && Caches(s.cache.slots[i], x);
      assert SlotOk(L, s.cache.slots[i], s.users[i], Pins(s), s.dirty, s.fs, s.ops);
      var q := s.cache.slots[i].holder.value;
      assert Active(s'.ops, q);
      ActiveCounts(s'.ops, q);
    }
  }

  lemma EndOk(L: Layout, s: State, s': State, p: nat)
    requires LogOk(L, s) && CacheOk(L, s) && EndOp(s, s', p)
    ensures CacheOk(L, s')
  {
    ActiveCounts(s.ops, p);
    assert s.pc == Idle && Pins(s') == Pins(s);
    forall i | 0 <= i < NBUF
      ensures SlotOk(L, s'.cache.slots[i], s'.users[i], Pins(s'), s'.dirty, s'.fs, s'.ops)
    {
      assert SlotOk(L, s.cache.slots[i], s.users[i], Pins(s), s.dirty, s.fs, s.ops);
    }
  }

  // ---------- durability

  /** The first t logged blocks are home. */
  ghost predicate HomeHolds(L: Layout, disk: Disk, fs: Disk, lh: seq<uint>, t: nat)
    requires Loggable(L, lh) && |disk| == |fs| == L.blocks
  {
    t <= |lh| && forall i | 0 <= i < t :: disk[lh[i]] == fs[lh[i]]
  }

  /** The disk always stands for the image of the last commit point. */
  ghost predicate DurableOk(L: Layout, s: State)
    requires L.Valid() && |s.disk| == |s.fs| == L.blocks && Loggable(L, s.lh)
  {
    match s.pc
    case Idle => EmptyLog(L, s.disk) && SameHome(L, s.disk, s.durable)
    case Logging(t) =>
      && EmptyLog(L, s.disk) && SameHome(L, s.disk, s.durable)
      && LogHolds(L, s.disk, s.fs, s.lh, t)
    case Installing(t, w) =>
      && Represents(L, s.disk, s.durable) && Head(s.disk[L.start]) == s.lh && SameHome(L, s.fs, s.durable)
      && HomeHolds(L, s.disk, s.fs, s.lh, t + Count(w))
    case Done => EmptyLog(L, s.disk) && SameHome(L, s.disk, s.durable) && s.lh == []
  }

  ghost predicate Inv(L: Layout, s: State) {
    CacheOk(L, s) && LogOk(L, s) && DurableOk(L, s)
  }

  /** A held buffer shows the current content of its block. */
  lemma HeldShows(L: Layout, s: State, p: nat, i: nat, x: uint)
    requires CacheOk(L, s) && HoldsBlock(s, p, i, x)
    ensures x < L.blocks && s.cache.slots[i].data == s.fs[x]
  {
    assert SlotOk(L, s.cache.slots[i], s.users[i], Pins(s), s.dirty, s.fs, s.ops);
  }

  /** Outside an operation, blocks that are not logged are on the disk as they are. */
  lemma LogAreaOnDisk(L: Layout, s: State, x: uint)
    requires CacheOk(L, s) && LogOk(L, s) && s.committer.Some? && x < L.blocks && !L.Home(x)
    ensures s.disk[x] == s.fs[x]
  {
  }

  lemma Sizes(L: Layout, s: State)
    requires CacheOk(L, s)
    ensures L.Valid() && |s.fs| == |s.disk| == |s.durable| == L.blocks && Wf(s.cache)
  {
  }

  /** A disk write of the committer, as the cache sees it. */
  lemma CommitWrite(L: Layout, s: State, s': State, i: nat, data: Block)
    requires CacheOk(L, s) && i < NBUF && s.cache.slots[i].valid && Pins(s') == Pins(s)
    requires s' == WriteThrough(s, i, data).(pc := s'.pc, lh := s'.lh, durable := s'.durable)
    requires |s'.durable| == L.blocks
    ensures CacheOk(L, s')
  {
    hide CacheOk, SlotOk, CacheInv;
    Sizes(L, s);
    WriteThroughOk(L, s, i, data);
    CacheOkPc(L, WriteThrough(s, i, data), s');
  }

  lemma CopyToLogOk(L: Layout, s: State, s': State, p: nat, to: nat, from: nat)
    requires Inv(L, s) && CopyToLog(L, s, s', p, to, from)
    ensures Inv(L, s')
  {
    hide CacheOk, SlotOk, CacheInv, LogHolds, SameHome, EmptyLog, ActiveCount, Unspent, NoDuplicates,
      Represents, Recoverable, Head, SetHead;
    Sizes(L, s);
    CommitWrite(L, s, s', to, s.cache.slots[from].data);
    CopyToLogDurable(L, s, s', p, to, from);
  }

  lemma CopyToLogDurable(L: Layout, s: State, s': State, p: nat, to: nat, from: nat)
    requires Inv(L, s) && CopyToLog(L, s, s', p, to, from)
    ensures |s'.disk| == |s'.fs| == L.blocks && DurableOk(L, s')
  {
    hide CacheOk, SlotOk, CacheInv, LogHolds, SameHome, EmptyLog, ActiveCount, Unspent, NoDuplicates,
      Represents, Recoverable, Head, SetHead;
    Sizes(L, s);
    HeldShows(L, s, p, from, s.lh[s.pc.tail]);
    CopiedToLog(L, s.disk, s.fs, s.durable, s.lh, s.pc.tail);
  }

  lemma CopiedToLog(L: Layout, disk: Disk, fs: Disk, durable: Disk, lh: seq<uint>, t: nat)
    requires Loggable(L, lh) && |disk| == |fs| == L.blocks && t < |lh|
    requires EmptyLog(L, disk) && SameHome(L, disk, durable)
    requires LogHolds(L, disk, fs, lh, t)
    ensures var w := Write(L.start + 1 + t, fs[lh[t]]);
      var disk', fs' := ApplyWrite(disk, w), ApplyWrite(fs, w);
      EmptyLog(L, disk') && SameHome(L, disk', durable) && LogHolds(L, disk', fs', lh, t + 1)
  {
    assert forall i | 0 <= i < |lh| :: L.Home(lh[i]);
  }

  lemma HeaderWritten(L: Layout, disk: Disk, fs: Disk, durable: Disk, lh: seq<uint>)
    requires Loggable(L, lh) && |disk| == |fs| == |durable| == L.blocks
    requires EmptyLog(L, disk) && SameHome(L, disk, durable) && LogHolds(L, disk, fs, lh, |lh|)
    requires ChangesOnly(L, durable, fs, lh)
    ensures var w := Write(L.start, SetHead(disk[L.start], lh));
      var disk', fs' := ApplyWrite(disk, w), ApplyWrite(fs, w);
      && Represents(L, disk', fs) && Head(disk'[L.start]) == lh && SameHome(L, fs', fs)
      && HomeHolds(L, disk', fs', lh, 0)
  {
    hide SetHead, LogHolds, Represents;
    HeaderCommits(L, disk, durable, fs, lh);
  }

  lemma WriteHeaderOk(L: Layout, s: State, s': State, p: nat, b: nat)
    requires Inv(L, s) && WriteHeader(L, s, s', p, b)
    ensures Inv(L, s')
  {
    hide CacheOk, SlotOk, CacheInv, LogHolds, HomeHolds, SameHome, EmptyLog, ActiveCount, Unspent, NoDuplicates,
      Represents, Head, SetHead;
    Sizes(L, s);
    HeldShows(L, s, p, b, L.start);
    LogAreaOnDisk(L, s, L.start);
    CommitWrite(L, s, s', b, SetHead(s.cache.slots[b].data, s.lh));
    CommitPoint(L, s);
    HeaderWritten(L, s.disk, s.fs, s.durable, s.lh);
  }

  /** At the commit point the current content differs from the durable image in the logged blocks only. */
  lemma CommitPoint(L: Layout, s: State)
    requires Inv(L, s) && s.pc == Logging(|s.lh|)
    ensures ChangesOnly(L, s.durable, s.fs, s.lh)
  {
    hide CacheOk, SlotOk, CacheInv, LogHolds, EmptyLog, ActiveCount, Unspent, NoDuplicates,
      Represents, Recoverable, Head;
    Sizes(L, s);
    forall x: nat | L.Home(x) && x !in s.lh ensures s.durable[x] == s.fs[x] {
      CleanOnDisk(L, s, x);
    }
  }

  lemma CleanOnDisk(L: Layout, s: State, x: uint)
    requires CacheOk(L, s) && LogOk(L, s) && s.committer.Some? && x < L.blocks && x !in s.lh
    ensures s.disk[x] == s.fs[x]
  {
    hide SlotOk, CacheInv;
    assert x !in Pins(s);
  }

  lemma InstalledHome(L: Layout, disk: Disk, fs: Disk, durable: Disk, lh: seq<uint>, t: nat)
    requires Loggable(L, lh) && |disk| == |fs| == L.blocks && t < |lh|
    requires Represents(L, disk, durable) && Head(disk[L.start]) == lh && SameHome(L, fs, durable)
    requires HomeHolds(L, disk, fs, lh, t)
    ensures disk[L.start + 1 + t] == fs[lh[t]]
    ensures var disk' := ApplyWrite(disk, Write(lh[t], fs[lh[t]]));
      && Represents(L, disk', durable) && Head(disk'[L.start]) == lh && HomeHolds(L, disk', fs, lh, t + 1)
  {
    InstallKeeps(L, disk, durable, lh[t]);
  }

  lemma InstallHomeOk(L: Layout, s: State, s': State, p: nat, l: nat, d: nat)
    requires Inv(L, s) && InstallHome(L, s, s', p, l, d)
    ensures Inv(L, s')
  {
    hide CacheOk, SlotOk, CacheInv, LogHolds, SameHome, EmptyLog, ActiveCount, Unspent, NoDuplicates,
      Represents, Head;
    Sizes(L, s);
    var t, x := s.pc.tail, s.lh[s.pc.tail];
    HeldShows(L, s, p, l, L.start + 1 + t);
    LogAreaOnDisk(L, s, L.start + 1 + t);
    InstalledHome(L, s.disk, s.fs, s.durable, s.lh, t);
    CommitWrite(L, s, s', d, s.fs[x]);
    assert s'.fs == s.fs;
  }

  lemma UnpinKeeps(L: Layout, s: State, s': State, p: nat, d: nat)
    requires Inv(L, s) && Unpin(s, s', p, d)
    ensures Inv(L, s')
  {
    hide CacheOk, SlotOk, CacheInv, ActiveCount, Unspent, Represents, Head;
    Sizes(L, s);
    UnpinOk(L, s, s', p, d);
  }

  lemma ClearHeaderOk(L: Layout, s: State, s': State, p: nat, b: nat)
    requires Inv(L, s) && ClearHeader(L, s, s', p, b)
    ensures Inv(L, s')
  {
    hide CacheOk, SlotOk, CacheInv, ActiveCount, Unspent, SetHead;
    Sizes(L, s);
    HeldShows(L, s, p, b, L.start);
    LogAreaOnDisk(L, s, L.start);
    assert Pins(s) == {} && Pins(s') == {};
    CommitWrite(L, s, s', b, SetHead(s.cache.slots[b].data, []));
    assert s'.disk == ApplyWrite(s.disk, Write(L.start, SetHead(s.disk[L.start], [])));
    ClearKeeps(L, s.disk, s.durable);
    assert LogOk(L, s');
  }

  lemma CommitDoneOk(L: Layout, s: State, s': State, p: nat)
    requires Inv(L, s) && CommitDone(s, s', p)
    ensures Inv(L, s')
  {
    assert Pins(s') == Pins(s);
    CacheOkPc(L, s, s');
  }

  /** Fields outside the cache can change as long as the pins stay. */
  lemma CacheOkPc(L: Layout, s: State, s': State)
    requires CacheOk(L, s) && Pins(s') == Pins(s) && |s'.durable| == L.blocks
    requires s' == s.(pc := s'.pc, lh := s'.lh, durable := s'.durable, committer := s'.committer)
    ensures CacheOk(L, s')
  {
    forall i | 0 <= i < NBUF
      ensures SlotOk(L, s'.cache.slots[i], s'.users[i], Pins(s'), s'.dirty, s'.fs, s'.ops)
    {
      assert SlotOk(L, s.cache.slots[i], s.users[i], Pins(s), s.dirty, s.fs, s.ops);
    }
  }

  // ---------- all steps together

  datatype Event =
    | DoGet(p: nat, x: uint, i: nat)
    | DoLock(p: nat, i: nat)
    | DoFill(p: nat, i: nat)
    | DoUnlock(p: nat, i: nat)
    | DoPut(p: nat, i: nat)
    | DoBegin(p: nat)
    | DoStore(p: nat, i: nat, data: Block)
    | DoLogWrite(p: nat, i: nat)
    | DoEnd(p: nat)
    | DoCopy(p: nat, to: nat, from: nat)
    | DoHeader(p: nat, b: nat)
    | DoInstall(p: nat, l: nat, d: nat)
    | DoBunpin(p: nat, d: nat)
    | DoClear(p: nat, b: nat)
    | DoFinish(p: nat)

  ghost predicate Next(L: Layout, s: State, e: Event, s': State) {
    match e
    case DoGet(p, x, i) => GetStep(L, s, s', p, x, i)
    case DoLock(p, i) => LockStep(s, s', p, i)
    case DoFill(p, i) => FillStep(s, s', p, i)
    case DoUnlock(p, i) => UnlockStep(s, s', p, i)
    case DoPut(p, i) => PutStep(s, s', p, i)
    case DoBegin(p) => BeginOp(s, s', p)
    case DoStore(p, i, data) => StoreStep(L, s, s', p, i, data)
    case DoLogWrite(p, i) => LogWriteStep(L, s, s', p, i)
    case DoEnd(p) => EndOp(s, s', p)
    case DoCopy(p, to, from) => CopyToLog(L, s, s', p, to, from)
    case DoHeader(p, b) => WriteHeader(L, s, s', p, b)
    case DoInstall(p, l, d) => InstallHome(L, s, s', p, l, d)
    case DoBunpin(p, d) => Unpin(s, s', p, d)
    case DoClear(p, b) => ClearHeader(L, s, s', p, b)
    case DoFinish(p) => CommitDone(s, s', p)
  }

  lemma ActiveIdle(L: Layout, s: State, p: nat)
    requires LogOk(L, s) && Active(s.ops, p)
    ensures s.outstanding > 0 && s.committer == None && s.pc == Idle
  {
    ActiveCounts(s.ops, p);
  }

  lemma CacheStepKeeps(L: Layout, s: State, e: Event, s': State)
    requires Inv(L, s) && Next(L, s, e, s') && (e.DoGet? || e.DoLock? || e.DoFill? || e.DoUnlock? || e.DoPut?)
    ensures Inv(L, s')
  {
    hide CacheOk, LogHolds, HomeHolds, SameHome, EmptyLog, ActiveCount, Unspent, NoDuplicates, Represents, Head;
    match e
    case DoGet(p, x, i) => GetOk(L, s, s', p, x, i);
    case DoLock(p, i) => LockOk(L, s, s', p, i);
    case DoFill(p, i) => FillOk(L, s, s', p, i);
    case DoUnlock(p, i) => UnlockOk(L, s, s', p, i);
    case DoPut(p, i) => PutOk(L, s, s', p, i);
    case _ =>
  }

  lemma OpStepKeeps(L: Layout, s: State, e: Event, s': State)
    requires Inv(L, s) && Next(L, s, e, s') && (e.DoBegin? || e.DoStore? || e.DoLogWrite? || e.DoEnd?)
    ensures Inv(L, s')
  {
    hide CacheOk, LogHolds, HomeHolds, SameHome, EmptyLog, ActiveCount, Unspent, NoDuplicates, Represents, Head;
    Sizes(L, s);
    match e
    case DoBegin(p) =>
      BeginOk(L, s, s', p);
      BeginCache(L, s, s', p);
    case DoStore(p, i, data) =>
      ActiveIdle(L, s, p);
      StoreOk(L, s, s', p, i, data);
    case DoLogWrite(p, i) =>
      LogWriteKeepsLog(L, s, s', p, i);
      LogWriteOk(L, s, s', p, i);
    case DoEnd(p) =>
      ActiveIdle(L, s, p);
      EndKeepsLog(L, s, s', p);
      EndOk(L, s, s', p);
      EndDurable(L, s, s', p);
    case _ =>
  }

  lemma BeginCache(L: Layout, s: State, s': State, p: nat)
    requires CacheOk(L, s) && BeginOp(s, s', p)
    ensures CacheOk(L, s')
  {
    assert Pins(s') == Pins(s);
    forall i | 0 <= i < NBUF
      ensures SlotOk(L, s'.cache.slots[i], s'.users[i], Pins(s'), s'.dirty, s'.fs, s'.ops)
    {
      assert SlotOk(L, s.cache.slots[i], s.users[i], Pins(s), s.dirty, s.fs, s.ops);
    }
  }

  lemma EndDurable(L: Layout, s: State, s': State, p: nat)
    requires Inv(L, s) && EndOp(s, s', p) && s.pc == Idle
    ensures |s'.disk| == |s'.fs| == L.blocks && DurableOk(L, s')
  {
    hide SlotOk, CacheInv;
  }

  lemma CommitStepKeeps(L: Layout, s: State, e: Event, s': State)
    requires Inv(L, s) && Next(L, s, e, s')
    requires e.DoCopy? || e.DoHeader? || e.DoInstall? || e.DoBunpin? || e.DoClear? || e.DoFinish?
    ensures Inv(L, s')
  {
    hide Inv;
    match e
    case DoCopy(p, to, from) => CopyToLogOk(L, s, s', p, to, from);
    case DoHeader(p, b) => WriteHeaderOk(L, s, s', p, b);
    case DoInstall(p, l, d) => InstallHomeOk(L, s, s', p, l, d);
    case DoBunpin(p, d) => UnpinKeeps(L, s, s', p, d);
    case DoClear(p, b) => ClearHeaderOk(L, s, s', p, b);
    case DoFinish(p) => CommitDoneOk(L, s, s', p);
    case _ =>
  }

  /** Every step of every process keeps the invariant. */
  lemma StepKeeps(L: Layout, s: State, e: Event, s': State)
    requires Inv(L, s) && Next(L, s, e, s')
    ensures Inv(L, s')
  {
    hide Inv, Next;
    if e.DoGet? || e.DoLock? || e.DoFill? || e.DoUnlock? || e.DoPut? {
      CacheStepKeeps(L, s, e, s');
    } else if e.DoBegin? || e.DoStore? || e.DoLogWrite? || e.DoEnd? {
      OpStepKeeps(L, s, e, s');
    } else {
      CommitStepKeeps(L, s, e, s');
    }
  }
}
