/** What has ended is kept: once a commit has followed the last operation, a crash loses none of it; and a commit,
    once begun, comes to its end. */
module WalDurability {
  import opened Options
  import opened Blocks
  import opened WriteAheadLog
  import opened Bio
  import opened Log
  import opened WalRuns
  import W = WalSystem

  // ---------- quiet moments

  /** No operation is in progress and no commit. */
  predicate Quiet(s: W.State) {
    s.outstanding == 0 && s.committer == None
  }

  /** At a quiet moment the log is empty and everything stored is durable. */
  lemma QuietIsDurable(L: Layout, s: W.State)
    requires W.Inv(L, s) && Quiet(s)
    ensures s.lh == [] && |s.durable| == |s.fs| == L.blocks && SameHome(L, s.durable, s.fs)
  {
    hide W.SlotOk, CacheInv;
    assert W.Pins(s) == {};
    forall x: nat | L.Home(x) ensures x < L.blocks && s.durable[x] == s.fs[x] {
      var y: uint := x;
      assert s.disk[y] == s.fs[y];
    }
  }

  lemma QuietInRuns(L: Layout, ts: seq<W.State>, es: seq<W.Event>, n: nat)
    requires Run(L, ts, es) && n < |ts| && Quiet(ts[n])
    ensures ts[n].lh == [] && |ts[n].durable| == |ts[n].fs| == L.blocks && SameHome(L, ts[n].durable, ts[n].fs)
  {
    hide W.Inv, Run;
    RunInv(L, ts, es, n);
    QuietIsDurable(L, ts[n]);
  }

  /** After a quiet moment k, the durable image is at every later moment n the content at a moment m between the two
      at which no operation was in progress. */
  lemma {:induction false} DurableSince(L: Layout, ts: seq<W.State>, es: seq<W.Event>, k: nat, n: nat) returns (m: nat)
    requires Run(L, ts, es) && k <= n < |ts| && Quiet(ts[k])
    ensures k <= m <= n && ts[m].outstanding == 0 && ts[m].dirty == {}
    ensures |ts[n].durable| == |ts[m].fs| == L.blocks && SameHome(L, ts[n].durable, ts[m].fs)
    ensures forall p: nat :: !W.Active(ts[m].ops, p)
    decreases n
  {
    hide W.Inv, W.Next;
    if n == k {
      m := k;
      RunInv(L, ts, es, k);
      QuietIsDurable(L, ts[k]);
      NoneInside(L, ts[k]);
    } else {
      RunInv(L, ts, es, n - 1);
      assert W.Next(L, ts[n - 1], es[n - 1], ts[n]);
      if es[n - 1].DoHeader? {
        m := n - 1;
        HeaderIsQuiet(L, ts[m], es[m], ts[n]);
        NoneInside(L, ts[m]);
      } else {
        m := DurableSince(L, ts, es, k, n - 1);
        DurableKept(L, ts[n - 1], es[n - 1], ts[n]);
      }
    }
  }

  /** Durability: whatever was stored before a quiet moment k, and so by any operation that had ended and been
      committed by then, is in the image that recovery finds after a crash at any later moment n.  That image is the
      content at a moment m between the two with no operation in progress. */
  lemma EndedSurvives(L: Layout, ts: seq<W.State>, es: seq<W.Event>, k: nat, n: nat, cuts: seq<nat>) returns (m: nat)
    requires Run(L, ts, es) && k <= n < |ts| && Quiet(ts[k])
    ensures k <= m <= n && (forall p: nat :: !W.Active(ts[m].ops, p)) && |ts[0].disk| == L.blocks
    ensures var e := Crashes(L, ts[n].disk, cuts);
      && Recoverable(L, e) && EmptyLog(L, Recover(L, e)) && |Recover(L, e)| == L.blocks
      && forall x: nat | L.Home(x) :: x < L.blocks && Recover(L, e)[x] == LastStored(ts, es, m, x)
  {
    hide Run, Crashes, Recover, Recoverable, EmptyLog, LastStored;
    BootSize(L, ts, es);
    m := DurableSince(L, ts, es, k, n);
    CrashRecovers(L, ts, es, n, cuts);
    var r := Recover(L, Crashes(L, ts[n].disk, cuts));
    forall x: nat | L.Home(x) ensures x < L.blocks && r[x] == LastStored(ts, es, m, x) {
      FsIsLastStored(L, ts, es, m, x);
    }
  }

  lemma BootSize(L: Layout, ts: seq<W.State>, es: seq<W.Event>)
    requires Run(L, ts, es)
    ensures |ts| == |es| + 1 && |ts[0].disk| == L.blocks
  {
  }

  /** Event j stores data in block x. */
  ghost predicate Stores(ts: seq<W.State>, es: seq<W.Event>, j: nat, x: nat, data: Block)
    requires |ts| == |es| + 1
  {
    && j < |es| && es[j].DoStore? && es[j].data == data
    && es[j].i < |ts[j].cache.slots| && ts[j].cache.slots[es[j].i].blockno == x
  }

  /** A store that precedes a quiet moment and is the last to its block is in the recovered image. */
  lemma StoreSurvives(L: Layout, ts: seq<W.State>, es: seq<W.Event>, j: nat, k: nat, n: nat, cuts: seq<nat>,
      x: nat, data: Block)
    requires Run(L, ts, es) && j < k <= n < |ts| && Quiet(ts[k]) && L.Home(x) && |ts| == |es| + 1
    requires Stores(ts, es, j, x, data) && forall l: nat, d: Block | j < l < n :: !Stores(ts, es, l, x, d)
    ensures var e := Crashes(L, ts[n].disk, cuts);
      Recoverable(L, e) && x < |Recover(L, e)| && Recover(L, e)[x] == data
  {
    hide Run, Crashes, Recover, Recoverable, EmptyLog, Stores, LastStored;
    var m := EndedSurvives(L, ts, es, k, n, cuts);
    LastIs(ts, es, j, m, x, data);
  }

  lemma {:induction false} LastIs(ts: seq<W.State>, es: seq<W.Event>, j: nat, m: nat, x: nat, data: Block)
    requires j < m < |ts| == |es| + 1 && x < |ts[0].disk|
    requires Stores(ts, es, j, x, data) && forall l: nat, d: Block | j < l < m :: !Stores(ts, es, l, x, d)
    ensures LastStored(ts, es, m, x) == data
    decreases m
  {
    if j + 1 < m {
      if es[m - 1].DoStore? {
        assert !Stores(ts, es, m - 1, x, es[m - 1].data);
      }
      LastIs(ts, es, j, m - 1, x, data);
    }
  }

  // ---------- a commit comes to its end

  /** Steps of commit still to come. */
  function Remaining(s: W.State): nat {
    var n := |s.lh|;
    match s.pc
    case Idle => 0
    case Logging(t) => (if t < n then n - t else 0) + 1 + 2 * n + 2
    case Installing(t, w) => 2 * (if t < n then n - t else 0) - (if w && t < n then 1 else 0) + 2
    case Done => 1
  }

  predicate OfCommit(e: W.Event) {
    e.DoCopy? || e.DoHeader? || e.DoInstall? || e.DoBunpin? || e.DoClear? || e.DoFinish?
  }

  /** While a process commits, each of commit's steps is its own and brings the end one step closer, and no other step
      touches the commit. */
  lemma CommitAdvances(L: Layout, s: W.State, e: W.Event, s': W.State)
    requires W.Inv(L, s) && W.Next(L, s, e, s') && s.committer.Some?
    ensures OfCommit(e) ==> Remaining(s) > 0 && Remaining(s') == Remaining(s) - 1 && e.p == s.committer.value
    ensures OfCommit(e) ==> s'.committer == if Remaining(s') == 0 then None else s.committer
    ensures !OfCommit(e) ==> s'.committer == s.committer && s'.pc == s.pc && s'.lh == s.lh
  {
    hide W.Inv, W.Next;
    CommitPlace(L, s);
    if OfCommit(e) {
      OneStep(L, s, e, s');
    } else {
      NoneInside(L, s);
      OtherStep(L, s, e, s');
    }
  }

  lemma OneStep(L: Layout, s: W.State, e: W.Event, s': W.State)
    requires W.Next(L, s, e, s') && s.committer.Some? && OfCommit(e) && (s.pc.Done? ==> s.lh == [])
    ensures Remaining(s) > 0 && Remaining(s') == Remaining(s) - 1 && e.p == s.committer.value
    ensures s'.committer == if Remaining(s') == 0 then None else s.committer
  {
    hide SetHead, ApplyWrite, Wf;
  }

  lemma OtherStep(L: Layout, s: W.State, e: W.Event, s': W.State)
    requires W.Next(L, s, e, s') && !OfCommit(e) && s.committer.Some? && forall p: nat :: !W.Active(s.ops, p)
    ensures s'.committer == s.committer && s'.pc == s.pc && s'.lh == s.lh
  {
    hide Wf, Get, Put;
  }

  lemma CommitPlace(L: Layout, s: W.State)
    requires W.Inv(L, s) && s.committer.Some?
    ensures s.pc != W.Idle && s.outstanding == 0
    ensures match s.pc
      case Idle => false
      case Logging(t) => t <= |s.lh|
      case Installing(t, w) => t + Count(w) <= |s.lh|
      case Done => s.lh == []
  {
    hide W.SlotOk, CacheInv;
  }

  /** The buffers the committing process p works on next. */
  ghost predicate HasBuffers(L: Layout, s: W.State, p: nat, a: nat, b: nat) {
    match s.pc
    case Logging(t) =>
      if t < |s.lh| then
        L.start + 1 + t < UINT_LIMIT && W.HoldsBlock(s, p, a, L.start + 1 + t) && W.HoldsBlock(s, p, b, s.lh[t])
      else L.start < UINT_LIMIT && W.HoldsBlock(s, p, a, L.start)
    case Installing(t, w) =>
      if t < |s.lh| then
        if w then W.HoldsBlock(s, p, b, s.lh[t])
        else L.start + 1 + t < UINT_LIMIT && W.HoldsBlock(s, p, a, L.start + 1 + t) && W.HoldsBlock(s, p, b, s.lh[t])
      else L.start < UINT_LIMIT && W.HoldsBlock(s, p, a, L.start)
    case _ => true
  }

  /** The next step of commit. */
  function NextOfCommit(s: W.State, p: nat, a: nat, b: nat): W.Event {
    match s.pc
    case Idle => W.DoFinish(p)
    case Logging(t) => if t < |s.lh| then W.DoCopy(p, a, b) else W.DoHeader(p, a)
    case Installing(t, w) =>
      if t < |s.lh| then (if w then W.DoBunpin(p, b) else W.DoInstall(p, a, b)) else W.DoClear(p, a)
    case Done => W.DoFinish(p)
  }

  /** A process that commits and has its buffers can always take the next step of commit. */
  lemma CommitCanAdvance(L: Layout, s: W.State, p: nat, a: nat, b: nat) returns (s': W.State)
    requires W.Inv(L, s) && s.committer == Some(p) && HasBuffers(L, s, p, a, b)
    ensures W.Next(L, s, NextOfCommit(s, p, a, b), s') && OfCommit(NextOfCommit(s, p, a, b))
  {
    hide W.CacheOk, W.SlotOk, CacheInv, NoDuplicates, W.ActiveCount, W.Unspent, SetHead, LogHolds, EmptyLog, SameHome;
    W.Sizes(L, s);
    CommitPlace(L, s);
    match s.pc
    case Logging(t) =>
      if t < |s.lh| {
        s' := W.WriteThrough(s, a, s.cache.slots[b].data).(pc := W.Logging(t + 1));
      } else {
        var data := SetHead(s.cache.slots[a].data, s.lh);
        s' := W.WriteThrough(s, a, data).(pc := W.Installing(0, false), durable := s.fs);
      }
    case Installing(t, w) =>
      if t < |s.lh| {
        if w {
          Referenced(L, s, p, b);
          s' := s.(cache := AddRef(s.cache, b, -1), pc := W.Installing(t + 1, false));
        } else {
          s' := W.WriteThrough(s, b, s.cache.slots[a].data).(pc := W.Installing(t, true));
        }
      } else {
        s' := W.WriteThrough(s, a, SetHead(s.cache.slots[a].data, [])).(pc := W.Done, lh := []);
      }
    case Done => s' := s.(committer := None, pc := W.Idle);
  }

  lemma Referenced(L: Layout, s: W.State, p: nat, i: nat)
    requires W.CacheOk(L, s) && W.Holds(s, p, i)
    ensures s.cache.slots[i].refcnt > 0
  {
    assert W.SlotOk(L, s.cache.slots[i], s.users[i], W.Pins(s), s.dirty, s.fs, s.ops);
  }

  // ---------- an operation can go on

  /** begin_op goes through exactly when no commit is under way and the log has room for one more operation. */
  lemma BeginExact(L: Layout, s: W.State, p: nat)
    requires W.Inv(L, s) && p < W.NPROC && !W.Active(s.ops, p)
    ensures (exists s' :: W.Next(L, s, W.DoBegin(p), s')) <==>
      s.committer == None && |s.lh| + (W.ActiveCount(s.ops) + 1) * MAXOPBLOCKS <= LOGSIZE
  {
    hide W.CacheOk, W.DurableOk;
    assert |s.ops| == W.NPROC && s.outstanding == W.ActiveCount(s.ops);
    var s' := s.(outstanding := s.outstanding + 1, ops := s.ops[p := Some(0)]);
    if s.committer == None && |s.lh| + (s.outstanding + 1) * MAXOPBLOCKS <= LOGSIZE {
      assert W.Next(L, s, W.DoBegin(p), s');
    }
  }

  /** An operation that holds a home block can change it, and can log it as long as the block is logged already or its
      budget and the log area last. */
  lemma OperationCanAdvance(L: Layout, s: W.State, p: nat, i: nat, data: Block) returns (s1: W.State, s2: W.State)
    requires W.Inv(L, s) && W.Active(s.ops, p) && W.Holds(s, p, i) && L.Home(s.cache.slots[i].blockno)
    ensures W.Next(L, s, W.DoStore(p, i, data), s1)
    ensures !W.TooBig(L, s) && (s.cache.slots[i].blockno in s.lh || s.ops[p].value < MAXOPBLOCKS) ==>
      W.Next(L, s, W.DoLogWrite(p, i), s2)
  {
    hide W.CacheOk, W.LogOk, W.DurableOk;
    W.Sizes(L, s);
    var x := s.cache.slots[i].blockno;
    s1 := s.(cache := SetData(s.cache, i, data), fs := s.fs[x := data], dirty := s.dirty + {x});
    s2 := if x in s.lh then s.(dirty := s.dirty - {x})
      else s.(cache := AddRef(s.cache, i, 1), lh := s.lh + [x], dirty := s.dirty - {x},
              ops := s.ops[p := Some(s.ops[p].value + 1)]);
  }

  /** An operation that has logged what it changed can end; the last to end commits. */
  lemma CanEnd(L: Layout, s: W.State, p: nat) returns (s': W.State)
    requires W.Inv(L, s) && W.Active(s.ops, p) && s.dirty == {}
    ensures W.Next(L, s, W.DoEnd(p), s') && W.Inv(L, s')
    ensures s'.outstanding == s.outstanding - 1
    ensures s'.outstanding == 0 ==> s'.committer == Some(p) && Remaining(s') > 0
  {
    hide W.CacheOk, W.DurableOk;
    W.ActiveIdle(L, s, p);
    s' := s.(ops := s.ops[p := None], outstanding := s.outstanding - 1,
             committer := if s.outstanding == 1 then Some(p) else s.committer,
             pc := if s.outstanding > 1 then s.pc else if |s.lh| > 0 then W.Logging(0) else W.Done);
    W.StepKeeps(L, s, W.DoEnd(p), s');
  }
}
