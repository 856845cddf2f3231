/** What holds of every run of the logging system: of every interleaving of processes that use
    begin_op, bread, log_write, brelse and end_op as log.c asks. */
module WalRuns {
  import opened Options
  import opened Blocks
  import opened WriteAheadLog
  import opened Bio
  import opened Lru
  import opened Log
  import W = WalSystem

  /** The state after recovery: an empty cache and an empty log. */
  ghost predicate Boot(L: Layout, s: W.State) {
    && L.Valid() && EmptyLog(L, s.disk)
    && s == W.State(s.disk, Booted().c, seq(NBUF, _ => multiset{}), [], 0, None, W.Idle,
                    seq(W.NPROC, _ => None), {}, s.disk, s.disk)
  }

  ghost predicate Run(L: Layout, ts: seq<W.State>, es: seq<W.Event>) {
    && |ts| == |es| + 1 && Boot(L, ts[0])
    && forall n | 0 <= n < |es| :: W.Next(L, ts[n], es[n], ts[n+1])
  }

  lemma {:induction false} NoneActive(ops: seq<Option<nat>>)
    requires forall p | 0 <= p < |ops| :: ops[p] == None
    ensures W.ActiveCount(ops) == 0 && W.Unspent(ops) == 0
  {
    if ops != [] {
      NoneActive(ops[..|ops|-1]);
    }
  }

  lemma BootInv(L: Layout, s: W.State)
    requires Boot(L, s)
    ensures W.Inv(L, s)
  {
    BootedInv();
    NoneActive(s.ops);
    assert W.Pins(s) == {};
    forall i | 0 <= i < NBUF
      ensures W.SlotOk(L, s.cache.slots[i], s.users[i], W.Pins(s), s.dirty, s.fs, s.ops)
    {
      assert s.cache.slots[i] == Slot(false, 0, 0, 0, None, ZeroBlock());
    }
  }

  lemma Blank(L: Layout) returns (s: W.State)
    requires L.Valid()
    ensures Boot(L, s)
  {
    hide Booted, Word, ZeroBlock;
    var disk := seq(L.blocks, _ => ZeroBlock());
    WordOfZero(0);
    s := W.State(disk, Booted().c, seq(NBUF, _ => multiset{}), [], 0, None, W.Idle,
                 seq(W.NPROC, _ => None), {}, disk, disk);
  }

  /** There are such runs: a blank disk is recovered, and any process can begin an operation. */
  lemma SomeRun(L: Layout, p: nat) returns (ts: seq<W.State>, es: seq<W.Event>)
    requires L.Valid() && p < W.NPROC
    ensures Run(L, ts, es) && es == [W.DoBegin(p)] && W.Active(ts[1].ops, p)
  {
    var s := Blank(L);
    BootFacts(L, s);
    hide Boot;
    var s' := s.(ops := s.ops[p := Some(0)], outstanding := 1);
    ts, es := [s, s'], [W.DoBegin(p)];
    assert W.BeginOp(s, s', p);
  }

  lemma BootFacts(L: Layout, s: W.State)
    requires Boot(L, s)
    ensures s.committer == None && s.lh == [] && s.outstanding == 0 && s.ops == seq(W.NPROC, _ => None)
  {
    hide Booted, EmptyLog;
  }

  lemma {:induction false} RunInv(L: Layout, ts: seq<W.State>, es: seq<W.Event>, n: nat)
    requires Run(L, ts, es) && n < |ts|
    ensures W.Inv(L, ts[n])
  {
    hide W.Inv, W.Next, Boot;
    if n == 0 {
      BootInv(L, ts[0]);
    } else {
      RunInv(L, ts, es, n - 1);
      assert W.Next(L, ts[n-1], es[n-1], ts[n]);
      W.StepKeeps(L, ts[n-1], es[n-1], ts[n]);
    }
  }

  // ---------- crash safety

  lemma InvRepresents(L: Layout, s: W.State)
    requires W.Inv(L, s)
    ensures Represents(L, s.disk, s.durable)
  {
    hide W.SlotOk, CacheInv;
    if !s.pc.Installing? {
      EmptyLogRepresents(L, s.disk, s.durable);
    }
  }

  /** A crash in any state of any run, followed by any series of interrupted recoveries: the
      recovery that completes leaves exactly the durable image at home and an empty log. */
  lemma CrashRecovers(L: Layout, ts: seq<W.State>, es: seq<W.Event>, n: nat, cuts: seq<nat>)
    requires Run(L, ts, es) && n < |ts|
    ensures var e := Crashes(L, ts[n].disk, cuts);
      Recoverable(L, e) && EmptyLog(L, Recover(L, e)) && SameHome(L, Recover(L, e), ts[n].durable)
  {
    hide W.Inv, Run;
    RunInv(L, ts, es, n);
    InvRepresents(L, ts[n]);
    RecoveryRestores(L, ts[n].disk, ts[n].durable, cuts);
  }

  /** The durable image is the content of the file system at an earlier moment m at which no
      operation was in progress and no change was unlogged.  So every operation is in it wholly
      (if it ended by m) or not at all (if it began after m). */
  lemma {:induction false} DurableIsQuiescent(L: Layout, ts: seq<W.State>, es: seq<W.Event>, n: nat) returns (m: nat)
    requires Run(L, ts, es) && n < |ts|
    ensures m <= n && ts[n].durable == ts[m].fs && ts[m].outstanding == 0 && ts[m].dirty == {}
    ensures forall p: nat | p < |ts[m].ops| :: ts[m].ops[p] == None
    ensures forall j | m < j < n :: !es[j].DoHeader?
  {
    hide W.Inv, W.Next;
    if n == 0 {
      m := 0;
      BootFacts(L, ts[0]);
      BootImage(L, ts[0]);
    } else {
      RunInv(L, ts, es, n - 1);
      assert W.Next(L, ts[n - 1], es[n - 1], ts[n]);
      if es[n - 1].DoHeader? {
        m := n - 1;
        HeaderIsQuiet(L, ts[m], es[m], ts[n]);
        NoneInside(L, ts[m]);
        NoneActiveAt(ts[m].ops);
      } else {
        m := DurableIsQuiescent(L, ts, es, n - 1);
        DurableKept(L, ts[n - 1], es[n - 1], ts[n]);
      }
    }
  }

  lemma BootImage(L: Layout, s: W.State)
    requires Boot(L, s)
    ensures s.durable == s.fs && s.dirty == {}
  {
    hide Booted, EmptyLog;
  }

  lemma NoneActiveAt(ops: seq<Option<nat>>)
    requires forall p: nat :: !W.Active(ops, p)
    ensures forall p: nat | p < |ops| :: ops[p] == None
  {
    forall p: nat | p < |ops| ensures ops[p] == None {
      assert !W.Active(ops, p);
    }
  }

  lemma NoneInside(L: Layout, s: W.State)
    requires W.Inv(L, s) && s.outstanding == 0
    ensures s.dirty == {} && forall p: nat :: !W.Active(s.ops, p)
  {
    hide W.CacheOk, W.DurableOk;
    forall p: nat ensures !W.Active(s.ops, p) {
      if W.Active(s.ops, p) {
        W.ActiveIdle(L, s, p);
      }
    }
  }

  lemma HeaderIsQuiet(L: Layout, s: W.State, e: W.Event, s': W.State)
    requires W.Inv(L, s) && W.Next(L, s, e, s') && e.DoHeader?
    ensures s.outstanding == 0 && s'.durable == s.fs && |s.fs| == L.blocks
  {
    hide W.SlotOk, CacheInv, W.DurableOk;
  }

  lemma DurableKept(L: Layout, s: W.State, e: W.Event, s': W.State)
    requires W.Next(L, s, e, s') && !e.DoHeader?
    ensures s'.durable == s.durable
  {
  }

  // ---------- the cache is a plain block map

  /** The content last stored in block x by the first n events, or its content at boot. */
  ghost function LastStored(ts: seq<W.State>, es: seq<W.Event>, n: nat, x: nat): Block
    requires n < |ts| == |es| + 1 && x < |ts[0].disk|
  {
    if n == 0 then ts[0].disk[x]
    else match es[n-1]
      case DoStore(p, i, data) =>
        if i < |ts[n-1].cache.slots| && ts[n-1].cache.slots[i].blockno == x then data else LastStored(ts, es, n - 1, x)
      case _ => LastStored(ts, es, n - 1, x)
  }

  /** Installing writes home what is there already. */
  lemma FsInstall(L: Layout, s: W.State, s': W.State, p: nat, l: nat, d: nat)
    requires W.Inv(L, s) && W.InstallHome(L, s, s', p, l, d)
    ensures s'.fs == s.fs
  {
    hide W.CacheOk, W.SlotOk, CacheInv, W.ActiveCount, W.Unspent, NoDuplicates, EmptyLog, Represents, SameHome, Head;
    W.Sizes(L, s);
    var t := s.pc.tail;
    W.HeldShows(L, s, p, l, L.start + 1 + t);
    W.LogAreaOnDisk(L, s, L.start + 1 + t);
    W.InstalledHome(L, s.disk, s.fs, s.durable, s.lh, t);
  }

  /** Only stores change the content of home blocks: copying, installing and recycling do not. */
  lemma FsStep(L: Layout, s: W.State, e: W.Event, s': W.State, x: nat)
    requires W.Inv(L, s) && W.Next(L, s, e, s') && L.Home(x)
    requires e.DoStore? ==> e.i < |s.cache.slots| && s.cache.slots[e.i].blockno != x
    ensures x < |s.fs| == |s'.fs| && s'.fs[x] == s.fs[x]
  {
    hide W.CacheOk, W.DurableOk, NoDuplicates, SetHead;
    W.Sizes(L, s);
    if e.DoInstall? {
      FsInstall(L, s, s', e.p, e.l, e.d);
    } else if e.DoCopy? {
      assert s'.fs == ApplyWrite(s.fs, Write(L.start + 1 + s.pc.tail, s.cache.slots[e.from].data));
    } else {
      hide W.LogOk;
    }
  }

  lemma {:induction false} FsIsLastStored(L: Layout, ts: seq<W.State>, es: seq<W.Event>, n: nat, x: nat)
    requires Run(L, ts, es) && n < |ts| && L.Home(x)
    ensures x < |ts[n].fs| && x < |ts[0].disk| && ts[n].fs[x] == LastStored(ts, es, n, x)
  {
    hide W.Inv, W.Next;
    if n > 0 {
      FsIsLastStored(L, ts, es, n - 1, x);
      RunInv(L, ts, es, n - 1);
      var s, e := ts[n-1], es[n-1];
      assert W.Next(L, s, e, ts[n]);
      if e.DoStore? && e.i < |s.cache.slots| && s.cache.slots[e.i].blockno == x {
        StoreSets(L, s, e, ts[n]);
      } else {
        StoreInRange(L, s, e, ts[n]);
        FsStep(L, s, e, ts[n], x);
      }
    }
  }

  lemma StoreInRange(L: Layout, s: W.State, e: W.Event, s': W.State)
    requires W.Next(L, s, e, s')
    ensures e.DoStore? ==> e.i < |s.cache.slots|
  {
  }

  lemma StoreSets(L: Layout, s: W.State, e: W.Event, s': W.State)
    requires W.Inv(L, s) && W.Next(L, s, e, s') && e.DoStore?
    ensures e.i < |s.cache.slots| && s.cache.slots[e.i].blockno < |s'.fs| && s'.fs[s.cache.slots[e.i].blockno] == e.data
  {
    hide W.SlotOk, CacheInv, W.DurableOk, W.LogOk;
  }

  /** bread returns the latest content: in every run, whoever holds a valid buffer for a home block
      sees what was last stored in that block, by whichever process and however often the block's
      buffer was recycled since. */
  lemma ReadsLatest(L: Layout, ts: seq<W.State>, es: seq<W.Event>, n: nat, p: nat, i: nat)
    requires Run(L, ts, es) && n < |ts| && W.Holds(ts[n], p, i) && L.Home(ts[n].cache.slots[i].blockno)
    ensures var x := ts[n].cache.slots[i].blockno;
      x < |ts[0].disk| && ts[n].cache.slots[i].data == LastStored(ts, es, n, x)
  {
    hide W.Inv, Run;
    RunInv(L, ts, es, n);
    HolderSees(L, ts[n], p, i);
    FsIsLastStored(L, ts, es, n, ts[n].cache.slots[i].blockno);
  }

  lemma HolderSees(L: Layout, s: W.State, p: nat, i: nat)
    requires W.Inv(L, s) && W.Holds(s, p, i)
    ensures s.cache.slots[i].blockno < |s.fs| && s.cache.slots[i].data == s.fs[s.cache.slots[i].blockno]
  {
    hide W.CacheOk, W.LogOk, W.DurableOk;
    W.HeldShows(L, s, p, i, s.cache.slots[i].blockno);
    W.Sizes(L, s);
  }

  /** A logged block stays in the cache, with its latest content and an extra reference, until
      commit has unpinned it; every other buffer has exactly one reference per user.  So no logged
      block is recycled before it is home, and each bpin is matched by exactly one bunpin. */
  lemma PinsMatch(L: Layout, ts: seq<W.State>, es: seq<W.Event>, n: nat)
    requires Run(L, ts, es) && n < |ts|
    ensures var s := ts[n];
      && CacheInv(s.cache) && |s.users| == NBUF
      && (forall x | x in W.Pins(s) :: exists i :: 0 <= i < NBUF && W.Caches(s.cache.slots[i], x))
      && (forall i | 0 <= i < NBUF ::
            s.cache.slots[i].refcnt ==
            |s.users[i]| + Count(s.cache.slots[i].valid && s.cache.slots[i].blockno in W.Pins(s)))
      && (s.pc.Done? ==> W.Pins(s) == {})
  {
    RunInv(L, ts, es, n);
    var s := ts[n];
    forall i | 0 <= i < NBUF
      ensures s.cache.slots[i].refcnt ==
        |s.users[i]| + Count(s.cache.slots[i].valid && s.cache.slots[i].blockno in W.Pins(s))
    {
      assert W.SlotOk(L, s.cache.slots[i], s.users[i], W.Pins(s), s.dirty, s.fs, s.ops);
    }
    forall x | x in W.Pins(s) ensures exists i :: 0 <= i < NBUF && W.Caches(s.cache.slots[i], x) {
      assert W.Cached(s.cache, x);
    }
  }

  // ---------- reservation

  /** In every run the log holds at most LOGSIZE blocks, each once, the unspent budgets of the active
      operations still fit, no operation is active during a commit (so end_op's panic and a
      log_write during commit are unreachable). */
  lemma Reserved(L: Layout, ts: seq<W.State>, es: seq<W.Event>, n: nat)
    requires Run(L, ts, es) && n < |ts|
    ensures var s := ts[n];
      && |s.lh| + W.Unspent(s.ops) <= LOGSIZE && 0 <= W.Unspent(s.ops)
      && NoDuplicates(s.lh) && s.outstanding == W.ActiveCount(s.ops)
      && forall p: nat | W.Active(s.ops, p) :: s.committer == None
  {
    hide W.CacheOk, W.DurableOk;
    RunInv(L, ts, es, n);
    W.UnspentBounds(ts[n].ops);
    forall p: nat | W.Active(ts[n].ops, p) ensures ts[n].committer == None {
      W.ActiveIdle(L, ts[n], p);
    }
  }

  /** An operation within its budget never runs into the LOGSIZE half of log_write's guard, so it is
      refused exactly when the on-disk log area is the smaller bound. */
  lemma RefusedOnlyBySize(L: Layout, ts: seq<W.State>, es: seq<W.Event>, n: nat, p: nat)
    requires Run(L, ts, es) && n < |ts| && W.Active(ts[n].ops, p) && ts[n].ops[p].value < MAXOPBLOCKS
    ensures W.TooBig(L, ts[n]) <==> |ts[n].lh| >= L.size - 1
    ensures L.size > LOGSIZE ==> !W.TooBig(L, ts[n])
  {
    hide W.CacheOk, W.DurableOk;
    RunInv(L, ts, es, n);
    W.UnspentIncludes(ts[n].ops, p);
  }
}
