/** The commit and recovery code of log.c, running on the buffer cache.  One process runs here and
    no other process holds a buffer; WalSystem has the interleavings.  A false result is the panic
    of bget, with every buffer referenced: like a crash, it leaves a prefix of the writes. */
module Log {
  import opened Options
  import opened Blocks
  import opened WriteAheadLog
  import opened Bio
  import opened CacheView
  import opened Sets

  /** The blocks of bs from position k on. */
  ghost function Rest(bs: seq<uint>, k: nat): set<uint> {
    set i | k <= i < |bs| :: bs[i]
  }

  ghost predicate NoDuplicates(bs: seq<uint>) {
    forall i, j | 0 <= i < j < |bs| :: bs[i] != bs[j]
  }

  lemma RestStep(bs: seq<uint>, k: nat)
    requires NoDuplicates(bs) && k < |bs|
    ensures bs[k] in Rest(bs, k) && Rest(bs, k + 1) == Rest(bs, k) - {bs[k]}
  {
  }

  lemma {:induction false} RestSize(bs: seq<uint>, k: nat)
    requires k <= |bs|
    ensures |Rest(bs, k)| <= |bs| - k && (NoDuplicates(bs) ==> |Rest(bs, k)| == |bs| - k)
    decreases |bs| - k
  {
    if k == |bs| {
      assert Rest(bs, k) == {};
    } else {
      RestSize(bs, k + 1);
      assert Rest(bs, k) == Rest(bs, k + 1) + {bs[k]};
    }
  }

  /** Issuing a and then one more write w. */
  lemma Chain(d: Disk, a: seq<Write>, w: Write, k: nat)
    requires k <= |a| + 1
    ensures k <= |a| ==> (a + [w])[..k] == a[..k]
    ensures k == |a| + 1 ==> (a + [w])[..k] == a + [w] && Apply(d, a + [w]) == ApplyWrite(Apply(d, a), w)
  {
    ApplyConcat(d, a, [w]);
    ApplyOne(Apply(d, a), w);
  }

  /** Issuing all of a and then k writes of b. */
  lemma ChainTwo(d: Disk, done: seq<Write>, a: seq<Write>, b: seq<Write>, k: nat)
    requires k <= |b|
    ensures done + a + b[..k] == done + (a + b)[..|a|+k]
    ensures Apply(d, (a + b)[..|a|+k]) == Apply(Apply(d, a), b[..k])
  {
    assert (a + b)[..|a|+k] == a + b[..k];
    assert done + a + b[..k] == done + (a + b[..k]);
    ApplyConcat(d, a, b[..k]);
  }

  /** After the log phase the log area holds the data and the header lists the blocks. */
  lemma AfterLogging(L: Layout, fs: Disk, bs: seq<uint>, data: seq<Block>)
    requires Loggable(L, bs) && |fs| == L.blocks && |data| == |bs|
    ensures var e := Apply(fs, LoggingWrites(L, fs[L.start], bs, data));
      e[L.start] == SetHead(fs[L.start], bs) && e[L.start+1..L.start+1+|bs|] == data
  {
    var a, w := LogWrites(L, data), Write(L.start, SetHead(fs[L.start], bs));
    Chain(fs, a, w, |a| + 1);
    var e0 := Apply(fs, a);
    assert e0[L.start] == fs[L.start] && forall i | 0 <= i < |bs| :: e0[L.start + 1 + i] == data[i] by {
      assert a[..|bs|] == a;
      LogPrefix(L, fs, data, |bs|);
    }
    var e := ApplyWrite(e0, w);
    var area := e[L.start+1..L.start+1+|bs|];
    forall i | 0 <= i < |bs| ensures area[i] == data[i] {
      assert area[i] == e[L.start + 1 + i] == e0[L.start + 1 + i];
    }
  }

  /** With nothing pinned, the cache shows the disk. */
  lemma ShowsDisk(c: Cache, disk: Disk, fs: Disk, pid: nat, dev: uint)
    requires Settled(c, disk, fs, pid, dev, {}, {}) && |disk| <= UINT_LIMIT
    ensures fs == disk
  {
    forall x: nat | x < |disk| ensures fs[x] == disk[x] {
      var y: uint := x;
    }
  }

  class Log {
    const bc: BufferCache
    const dev: uint
    const L: Layout
    const block: array<uint>   // lh.block
    var n: nat                 // lh.n

    ghost predicate Valid()
      reads this, block, bc, bc.buf
    {
      && bc.Valid() && block.Length == LOGSIZE && n <= LOGSIZE && n < L.size
      && L.Valid() && |bc.disk| == L.blocks
      && forall i | 0 <= i < n :: L.Home(block[i])
    }

    /** The cache shows fs, and exactly the blocks in P are pinned. */
    ghost predicate Shows(fs: Disk, pid: nat, P: set<uint>)
      reads this, block, bc, bc.buf
    {
      Valid() && |fs| == L.blocks && Settled(bc.Abs(), bc.disk, fs, pid, dev, P, {})
    }

    /** No buffer can be recycled. */
    ghost predicate NoBuffers()
      reads bc, bc.buf
    {
      bc.Valid() && Busy(bc.Abs())
    }

    /** Home blocks are pinned, entry k of the header among them. */
    ghost predicate Pins(P: set<uint>, k: nat)
      reads this, block
    {
      k < block.Length && block[k] in P && forall x | x in P :: L.Home(x)
    }

    lemma RestPins(k: nat)
      requires Valid() && k < n
      ensures Pins(Rest(block[..n], 0), k) && Pins(Rest(block[..n], k), k)
    {
      assert block[..n][k] == block[k];
    }

    constructor (bc: BufferCache, dev: uint, L: Layout)
      requires bc.Valid() && L.Valid() && |bc.disk| == L.blocks
      ensures Valid() && n == 0 && this.bc == bc && this.dev == dev && this.L == L && fresh(block)
    {
      this.bc, this.dev, this.L, this.n := bc, dev, L, 0;
      this.block := new uint[LOGSIZE](_ => 0);
    }

    /** bread from a settled cache. */
    method Read(pid: nat, x: uint, ghost fs: Disk, ghost P: set<uint>, ghost H: set<nat>) returns (r: Option<nat>)
      requires Valid() && Settled(bc.Abs(), bc.disk, fs, pid, dev, P, H) && x < |bc.disk|
      requires forall i | i in H && i < NBUF :: bc.Abs().slots[i].blockno != x
      modifies bc.buf
      ensures Valid()
      ensures r.Some? ==>
        && r.value < NBUF && r.value !in H && Settled(bc.Abs(), bc.disk, fs, pid, dev, P, H + {r.value})
        && Caches(bc.Abs().slots[r.value], dev, x) && bc.Abs().slots[r.value].data == fs[x]
        && forall j | 0 <= j < NBUF && j != r.value :: bc.Abs().slots[j] == old(bc.Abs()).slots[j]
      ensures r.None? ==> NoBuffers()
      ensures x in P || |P| + |H| < NBUF ==> r.Some?
      ensures H == {} && x !in P && |P| >= NBUF ==> r.None?
    {
      ghost var c := bc.Abs();
      ReadSucceeds(c, bc.disk, fs, pid, dev, P, H, x);
      forall i | 0 <= i < NBUF && Matches(c.slots[i], dev, x) ensures c.slots[i].holder == None {
        assert SlotSettled(c.slots[i], fs, pid, dev, P, i in H);
      }
      r := bc.Bread(pid, dev, x);
      if r.Some? {
        ReadSettled(c, bc.disk, fs, pid, dev, P, H, x);
      }
    }

    /** brelse to a settled cache. */
    method Release(pid: nat, b: nat, ghost fs: Disk, ghost P: set<uint>, ghost H: set<nat>)
      requires Valid() && Settled(bc.Abs(), bc.disk, fs, pid, dev, P, H) && b < NBUF && b in H
      modifies bc.buf, bc`order
      ensures Valid() && Settled(bc.Abs(), bc.disk, fs, pid, dev, P, H - {b})
      ensures forall j | 0 <= j < NBUF && j != b :: bc.Abs().slots[j] == old(bc.Abs()).slots[j]
    {
      PutSettled(bc.Abs(), bc.disk, fs, pid, dev, P, H, b);
      var ok := bc.Brelse(pid, b);
    }

    /** Change a held buffer and bwrite it. */
    method WriteBack(pid: nat, b: nat, data: Block, ghost fs: Disk, ghost P: set<uint>, ghost H: set<nat>)
      requires Valid() && Settled(bc.Abs(), bc.disk, fs, pid, dev, P, H) && b < NBUF && b in H
      modifies bc.buf, bc`disk, bc`writes
      ensures Valid()
      ensures var w := Write(old(bc.Abs()).slots[b].blockno, data);
        && w.addr < |bc.disk|
        && bc.disk == ApplyWrite(old(bc.disk), w) && bc.writes == old(bc.writes) + [w]
        && Settled(bc.Abs(), bc.disk, ApplyWrite(fs, w), pid, dev, P, H)
      ensures bc.Abs() == SetData(old(bc.Abs()), b, data)
    {
      StoreSettled(bc.Abs(), bc.disk, fs, pid, dev, P, H, b, data);
      assert SlotSettled(bc.Abs().slots[b], fs, pid, dev, P, true);
      bc.Store(b, data);
      var ok := bc.Bwrite(pid, b);
    }

    /** bread of a log block and then of a home block. */
    method ReadTwo(pid: nat, x: uint, y: uint, ghost fs: Disk, ghost P: set<uint>) returns (ok: bool, a: nat, b: nat)
      requires Shows(fs, pid, P) && x < |bc.disk| && y < |bc.disk| && x != y
      modifies bc.buf
      ensures Valid()
      ensures ok ==>
        && a < NBUF && b < NBUF && a != b && Settled(bc.Abs(), bc.disk, fs, pid, dev, P, {a, b})
        && Caches(bc.Abs().slots[a], dev, x) && Caches(bc.Abs().slots[b], dev, y)
      ensures !ok ==> NoBuffers()
      ensures |P| < NBUF && (y in P || |P| + 1 < NBUF) ==> ok
      ensures x !in P && |P| >= NBUF ==> !ok
    {
      hide Ring, InRange, CacheInv, SlotSettled, Settled, Busy;
      ok, a, b := false, 0, 0;
      var r := Read(pid, x, fs, P, {});
      if r.Some? {
        assert {} + {r.value} == {r.value};
        var s := Read(pid, y, fs, P, {r.value});
        if s.Some? {
          ok, a, b := true, r.value, s.value;
          assert {r.value} + {s.value} == {a, b};
        }
      }
    }

    /** brelse of two buffers, a first. */
    method ReleaseTwo(pid: nat, a: nat, b: nat, ghost fs: Disk, ghost P: set<uint>)
      requires Valid() && a < NBUF && b < NBUF && a != b && Settled(bc.Abs(), bc.disk, fs, pid, dev, P, {a, b})
      modifies bc.buf, bc`order
      ensures Shows(fs, pid, P)
    {
      Release(pid, a, fs, P, {a, b});
      assert {a, b} - {a} == {b};
      Release(pid, b, fs, P, {b});
      assert {b} - {b} == {};
    }

    /** One pass of the loop in write_log. */
    method LogOne(pid: nat, tail: nat, ghost fs: Disk, ghost P: set<uint>) returns (ok: bool)
      requires Shows(fs, pid, P) && tail < n
      modifies bc.buf, bc`order, bc`disk, bc`writes
      ensures Valid()
      ensures var w := Write(L.start + 1 + tail, fs[block[tail]]);
        if ok then bc.disk == ApplyWrite(old(bc.disk), w) && bc.writes == old(bc.writes) + [w]
                   && Shows(ApplyWrite(fs, w), pid, P)
        else bc.disk == old(bc.disk) && bc.writes == old(bc.writes) && NoBuffers()
      ensures Pins(P, tail) ==> (ok <==> |P| < NBUF)
    {
      hide Ring, InRange, CacheInv, SlotSettled, Settled, Busy;
      assert !L.Home(L.start + tail + 1);
      var to, from;
      ok, to, from := ReadTwo(pid, L.start + tail + 1, block[tail], fs, P);
      if ok {
        HeldSlot(bc.Abs(), bc.disk, fs, pid, dev, P, {to, from}, from);
        WriteBack(pid, to, bc.buf[from].slot.data, fs, P, {to, from});
        assert {to, from} == {from, to};
        ReleaseTwo(pid, from, to, ApplyWrite(fs, Write(L.start + 1 + tail, fs[block[tail]])), P);
      }
    }

    /** bunpin of a held buffer whose block is on the disk. */
    method Unpin(pid: nat, b: nat, ghost fs: Disk, ghost P: set<uint>, ghost H: set<nat>)
      requires Valid() && Settled(bc.Abs(), bc.disk, fs, pid, dev, P, H) && b < NBUF && b in H
      requires bc.Abs().slots[b].blockno in P && bc.disk[bc.Abs().slots[b].blockno] == fs[bc.Abs().slots[b].blockno]
      modifies bc.buf
      ensures Valid() && Settled(bc.Abs(), bc.disk, fs, pid, dev, P - {old(bc.Abs()).slots[b].blockno}, H)
    {
      UnpinSettled(bc.Abs(), bc.disk, fs, pid, dev, P, H, b);
      bc.Bunpin(b);
    }

    /** The end of a pass of install_trans: bunpin unless recovering, then brelse both buffers. */
    method Finish(pid: nat, lbuf: nat, dbuf: nat, recovering: bool, ghost x: uint, ghost fs: Disk, ghost P: set<uint>)
      requires Valid() && lbuf < NBUF && dbuf < NBUF && lbuf != dbuf
      requires Settled(bc.Abs(), bc.disk, fs, pid, dev, P, {lbuf, dbuf})
      requires bc.Abs().slots[dbuf].blockno == x < |bc.disk| && bc.disk[x] == fs[x] && (!recovering ==> x in P)
      modifies bc.buf, bc`order
      ensures Shows(fs, pid, if recovering then P else P - {x})
    {
      if recovering {
        ReleaseTwo(pid, lbuf, dbuf, fs, P);
      } else {
        Unpin(pid, dbuf, fs, P, {lbuf, dbuf});
        ReleaseTwo(pid, lbuf, dbuf, fs, P - {x});
      }
    }

    /** One pass of the loop in install_trans. */
    method InstallOne(pid: nat, tail: nat, recovering: bool, ghost fs: Disk, ghost P: set<uint>) returns (ok: bool)
      requires Shows(fs, pid, P) && tail < n && (!recovering ==> block[tail] in P)
      modifies bc.buf, bc`order, bc`disk, bc`writes
      ensures Valid()
      ensures var w := Write(block[tail], fs[L.start + 1 + tail]);
        if ok then bc.disk == ApplyWrite(old(bc.disk), w) && bc.writes == old(bc.writes) + [w]
                   && Shows(ApplyWrite(fs, w), pid, if recovering then P else P - {block[tail]})
        else bc.disk == old(bc.disk) && bc.writes == old(bc.writes) && NoBuffers()
      ensures P == {} ==> ok
      ensures Pins(P, tail) ==> (ok <==> |P| < NBUF)
    {
      hide Ring, InRange, CacheInv, SlotSettled, Settled, Busy;
      assert !L.Home(L.start + tail + 1);
      var lbuf, dbuf;
      ok, lbuf, dbuf := ReadTwo(pid, L.start + tail + 1, block[tail], fs, P);
      if ok {
        HeldSlot(bc.Abs(), bc.disk, fs, pid, dev, P, {lbuf, dbuf}, lbuf);
        var data := bc.buf[lbuf].slot.data;
        ghost var x, fs' := block[tail], ApplyWrite(fs, Write(block[tail], data));
        assert data == fs[L.start + 1 + tail];
        WriteBack(pid, dbuf, data, fs, P, {lbuf, dbuf});
        Finish(pid, lbuf, dbuf, recovering, x, fs', P);
      }
    }

    /** The header image that write_head stores over the old one. */
    method Header(old_: Block) returns (data: Block)
      requires Valid()
      ensures data == SetHead(old_, block[..n])
    {
      data := SetWord(old_, 0, n);
      var i := 0;
      while i < n
        invariant 0 <= i <= n && data == SetEntries(SetWord(old_, 0, n), block[..i])
      {
        assert block[..i+1][..i] == block[..i];
        data := SetWord(data, i + 1, block[i]);
        i := i + 1;
      }
    }

    method WriteHead(pid: nat, ghost fs: Disk, ghost P: set<uint>) returns (ok: bool)
      requires Shows(fs, pid, P)
      modifies bc.buf, bc`order, bc`disk, bc`writes
      ensures Valid()
      ensures var w := Write(L.start, SetHead(fs[L.start], block[..n]));
        if ok then bc.disk == ApplyWrite(old(bc.disk), w) && bc.writes == old(bc.writes) + [w]
                   && Shows(ApplyWrite(fs, w), pid, P)
        else bc.disk == old(bc.disk) && bc.writes == old(bc.writes) && NoBuffers()
      ensures ok <==> L.start in P || |P| < NBUF
    {
      hide Ring, InRange, CacheInv, SlotSettled;
      var r := Read(pid, L.start, fs, P, {});
      ok := r.Some?;
      if ok {
        var b := r.value;
        assert {} + {b} == {b};
        var data := Header(bc.buf[b].slot.data);
        WriteBack(pid, b, data, fs, P, {b});
        Release(pid, b, ApplyWrite(fs, Write(L.start, data)), P, {b});
        assert {b} - {b} == {};
      }
    }

    method LoadHead(h: Block)
      requires Valid() && HeadFits(h) && |Head(h)| < L.size && forall i | 0 <= i < |Head(h)| :: L.Home(Head(h)[i])
      modifies block, `n
      ensures Valid() && block[..n] == Head(h)
    {
      n := 0;
      var i, m := 0, Word(h, 0);
      while i < m
        invariant 0 <= i <= m && n == 0 && Valid()
        invariant forall j | 0 <= j < i :: block[j] == Head(h)[j]
      {
        block[i] := Word(h, i + 1);
        i := i + 1;
      }
      n := m;
    }

    method ReadHead(pid: nat, ghost fs: Disk) returns (ok: bool)
      requires Shows(fs, pid, {}) && Recoverable(L, bc.disk)
      modifies bc.buf, bc`order, block, `n
      ensures ok && Valid() && block[..n] == Head(bc.disk[L.start]) && Shows(fs, pid, {})
    {
      hide Ring, InRange, CacheInv, SlotSettled;
      var r := Read(pid, L.start, fs, {}, {});
      ok := r.Some?;
      if ok {
        assert {} + {r.value} == {r.value};
        LoadHead(bc.buf[r.value].slot.data);
        Release(pid, r.value, fs, {}, {r.value});
        assert {r.value} - {r.value} == {};
      }
    }

    /** After k of the writes ws, started from disk d with the cache showing fs. */
    ghost predicate Progress(ws: seq<Write>, k: nat, fs: Disk, d: Disk, done: seq<Write>, pid: nat, P: set<uint>)
      reads this, block, bc, bc.buf
    {
      k <= |ws| && Shows(Apply(fs, ws[..k]), pid, P) && Issued(ws, k, d, done)
    }

    ghost predicate Issued(ws: seq<Write>, k: nat, d: Disk, done: seq<Write>)
      reads bc
    {
      k <= |ws| && bc.writes == done + ws[..k] && bc.disk == Apply(d, ws[..k])
    }

    /** One more write of a sequence. */
    lemma Advance(ws: seq<Write>, k: nat, fs: Disk, d: Disk, done: seq<Write>, pid: nat, P: set<uint>)
      requires k < |ws| && Shows(ApplyWrite(Apply(fs, ws[..k]), ws[k]), pid, P)
      requires bc.writes == done + ws[..k] + [ws[k]] && bc.disk == ApplyWrite(Apply(d, ws[..k]), ws[k])
      ensures Progress(ws, k + 1, fs, d, done, pid, P)
    {
      ApplyPrefix(fs, ws, k);
      ApplyPrefix(d, ws, k);
      assert ws[..k+1] == ws[..k] + [ws[k]];
    }

    method LogStep(pid: nat, tail: nat, ghost ws: seq<Write>, ghost fs: Disk, ghost d: Disk, ghost done: seq<Write>,
                   ghost P: set<uint>) returns (ok: bool)
      requires Progress(ws, tail, fs, d, done, pid, P) && tail < n && tail < |ws|
      requires ws[tail] == Write(L.start + 1 + tail, Apply(fs, ws[..tail])[block[tail]])
      modifies bc.buf, bc`order, bc`disk, bc`writes
      ensures Valid()
      ensures ok ==> Progress(ws, tail + 1, fs, d, done, pid, P)
      ensures !ok ==> Issued(ws, tail, d, done) && NoBuffers()
      ensures Pins(P, tail) ==> (ok <==> |P| < NBUF)
    {
      ok := LogOne(pid, tail, Apply(fs, ws[..tail]), P);
      if ok {
        Advance(ws, tail, fs, d, done, pid, P);
      }
    }

    /** write_log: the cached contents of the logged blocks go to the log area, in order. */
    method WriteLog(pid: nat, ghost fs: Disk, ghost P: set<uint>, ghost ws: seq<Write>) returns (ok: bool, ghost k: nat)
      requires Shows(fs, pid, P) && ws == LogWrites(L, Contents(fs, block[..n]))
      modifies bc.buf, bc`order, bc`disk, bc`writes
      ensures Valid() && k <= n && (ok ==> k == n)
      ensures Issued(ws, k, old(bc.disk), old(bc.writes))
      ensures ok ==> Progress(ws, n, fs, old(bc.disk), old(bc.writes), pid, P)
      ensures !ok ==> NoBuffers()
      ensures P == Rest(block[..n], 0) ==> (ok <==> |P| < NBUF)
    {
      hide Ring, InRange, CacheInv, SlotSettled, Settled, Pins, Rest, NoBuffers;
      ghost var data := Contents(fs, block[..n]);
      var tail := 0;
      while tail < n
        invariant 0 <= tail <= n
        invariant Progress(ws, tail, fs, old(bc.disk), old(bc.writes), pid, P)
        invariant P == Rest(block[..n], 0) && tail > 0 ==> |P| < NBUF
      {
        RestPins(tail);
        LogPrefix(L, fs, data, tail);
        ok := LogStep(pid, tail, ws, fs, old(bc.disk), old(bc.writes), P);
        if !ok { k := tail; return; }
        tail := tail + 1;
      }
      RestSize(block[..n], 0);
      ok, k := true, n;
    }

    method InstallStep(pid: nat, tail: nat, recovering: bool, ghost ws: seq<Write>, ghost fs: Disk, ghost d: Disk,
                       ghost done: seq<Write>, ghost P: set<uint>) returns (ok: bool)
      requires Progress(ws, tail, fs, d, done, pid, P) && tail < n && tail < |ws|
      requires ws[tail] == Write(block[tail], Apply(fs, ws[..tail])[L.start + 1 + tail])
      requires !recovering ==> block[tail] in P
      modifies bc.buf, bc`order, bc`disk, bc`writes
      ensures Valid()
      ensures ok ==> Progress(ws, tail + 1, fs, d, done, pid, if recovering then P else P - {block[tail]})
      ensures !ok ==> Issued(ws, tail, d, done) && NoBuffers()
      ensures P == {} ==> ok
      ensures Pins(P, tail) ==> (ok <==> |P| < NBUF)
    {
      ok := InstallOne(pid, tail, recovering, Apply(fs, ws[..tail]), P);
      if ok {
        Advance(ws, tail, fs, d, done, pid, if recovering then P else P - {block[tail]});
      }
    }

    /** install_trans: the log blocks go to their homes, in order; unless recovering, each home
        block is unpinned once. */
    method InstallTrans(pid: nat, recovering: bool, ghost fs: Disk, ghost ws: seq<Write>)
      returns (ok: bool, ghost k: nat)
      requires Valid() && Shows(fs, pid, if recovering then {} else Rest(block[..n], 0))
      requires ws == InstallWrites(block[..n], fs[L.start+1..L.start+1+n])
      requires !recovering ==> NoDuplicates(block[..n])
      modifies bc.buf, bc`order, bc`disk, bc`writes
      ensures Valid() && k <= n && (ok ==> k == n)
      ensures Issued(ws, k, old(bc.disk), old(bc.writes))
      ensures ok ==> Progress(ws, n, fs, old(bc.disk), old(bc.writes), pid, {})
      ensures !ok ==> NoBuffers()
      ensures ok <==> recovering || n < NBUF
    {
      hide Ring, InRange, CacheInv, SlotSettled, Settled, Pins, Rest, NoBuffers;
      ghost var bs, data := block[..n], fs[L.start+1..L.start+1+n];
      ghost var P := if recovering then {} else Rest(bs, 0);
      var tail := 0;
      while tail < n
        invariant 0 <= tail <= n && P == if recovering then {} else Rest(bs, tail)
        invariant Progress(ws, tail, fs, old(bc.disk), old(bc.writes), pid, P)
        invariant !recovering && tail > 0 ==> n < NBUF
      {
        InstallPrefix(L, fs, bs, data, tail);
        assert bs[tail] == block[tail] && data[tail] == fs[L.start + 1 + tail];
        assert ws[tail] == Write(bs[tail], data[tail]);
        if !recovering {
          RestStep(bs, tail);
          RestSize(bs, tail);
          RestPins(tail);
        }
        ok := InstallStep(pid, tail, recovering, ws, fs, old(bc.disk), old(bc.writes), P);
        if !ok { k := tail; return; }
        P := if recovering then P else P - {bs[tail]};
        tail := tail + 1;
      }
      RestSize(bs, n);
      ok, k := true, n;
    }

    /** The first half of commit: the log blocks, then the header that commits them. */
    method LogAndCommit(pid: nat, ghost fs: Disk, ghost P: set<uint>, ghost data: seq<Block>, ghost ws: seq<Write>)
      returns (ok: bool, ghost k: nat)
      requires Shows(fs, pid, P) && data == Contents(fs, block[..n])
      requires ws == LoggingWrites(L, fs[L.start], block[..n], data)
      modifies bc.buf, bc`order, bc`disk, bc`writes
      ensures Valid() && k <= n + 1 && (ok ==> k == n + 1)
      ensures Issued(ws, k, old(bc.disk), old(bc.writes))
      ensures ok ==> Shows(Apply(fs, ws), pid, P)
      ensures !ok ==> NoBuffers()
      ensures P == Rest(block[..n], 0) ==> (ok <==> |P| < NBUF)
    {
      hide Ring, InRange, CacheInv, SlotSettled, Settled;
      ghost var a, w := LogWrites(L, data), Write(L.start, SetHead(fs[L.start], block[..n]));
      assert Apply(fs, a)[L.start] == fs[L.start] by {
        LogPrefix(L, fs, data, n);
        assert a[..n] == a;
      }
      ok, k := WriteLog(pid, fs, P, a);
      Chain(old(bc.disk), a, w, k);
      if ok {
        assert a[..n] == a;
        ok := WriteHead(pid, Apply(fs, a), P);
        if ok {
          k := n + 1;
          Chain(old(bc.disk), a, w, n + 1);
          Chain(fs, a, w, n + 1);
        }
      }
    }

    /** The second half of commit, and the rest of recovery: install the blocks, empty the log. */
    method InstallAndClear(pid: nat, recovering: bool, ghost fs: Disk, ghost ws: seq<Write>)
      returns (ok: bool, ghost k: nat)
      requires Valid() && Shows(fs, pid, if recovering then {} else Rest(block[..n], 0))
      requires ws == InstallingWrites(L, fs[L.start], block[..n], fs[L.start+1..L.start+1+n])
      requires !recovering ==> NoDuplicates(block[..n])
      modifies bc.buf, bc`order, bc`disk, bc`writes, `n
      ensures Valid() && k <= |ws| && (ok ==> k == |ws| && n == 0)
      ensures Issued(ws, k, old(bc.disk), old(bc.writes))
      ensures ok ==> Shows(Apply(fs, ws), pid, {})
      ensures !ok ==> NoBuffers()
      ensures ok <==> recovering || old(n) < NBUF
    {
      hide Ring, InRange, CacheInv, SlotSettled, Settled;
      ghost var data, m := fs[L.start+1..L.start+1+n], n;
      ghost var a, w := InstallWrites(block[..n], data), Write(L.start, SetHead(fs[L.start], []));
      ok, k := InstallTrans(pid, recovering, fs, a);
      Chain(old(bc.disk), a, w, k);
      if ok {
        InstallPrefix(L, fs, block[..n], data, m);
        assert a[..m] == a;
        n := 0;
        assert block[..n] == [];
        ok := WriteHead(pid, Apply(fs, a), {});
        if ok {
          k := m + 1;
          Chain(old(bc.disk), a, w, m + 1);
          Chain(fs, a, w, m + 1);
        }
      }
    }

    /** A committed transaction: what the cache shows differs from the disk in the logged blocks only. */
    lemma Uncommitted(fs: Disk, pid: nat)
      requires Valid() && Shows(fs, pid, Rest(block[..n], 0)) && EmptyLog(L, bc.disk)
      ensures Loggable(L, block[..n]) && ChangesOnly(L, bc.disk, fs, block[..n]) && fs[L.start] == bc.disk[L.start]
    {
      hide Ring, InRange, CacheInv, SlotSettled;
      var bs := block[..n];
      forall x: nat | x < L.blocks && x !in bs ensures bc.disk[x] == fs[x] {
        var y: uint := x;
        assert y !in Rest(bs, 0);
      }
      assert L.start !in bs;
    }

    /** commit of a nonempty transaction. */
    method CommitBlocks(pid: nat, ghost fs: Disk, ghost data: seq<Block>, ghost a: seq<Write>, ghost b: seq<Write>)
      returns (ok: bool, ghost k: nat)
      requires Valid() && Shows(fs, pid, Rest(block[..n], 0)) && NoDuplicates(block[..n])
      requires data == Contents(fs, block[..n]) && a == LoggingWrites(L, fs[L.start], block[..n], data)
      requires b == InstallingWrites(L, SetHead(fs[L.start], block[..n]), block[..n], data)
      modifies bc.buf, bc`order, bc`disk, bc`writes, `n
      ensures Valid() && k <= |a + b| && (ok ==> k == |a + b| && n == 0)
      ensures Issued(a + b, k, old(bc.disk), old(bc.writes))
      ensures ok ==> Shows(Apply(Apply(fs, a), b), pid, {})
      ensures !ok ==> NoBuffers()
      ensures ok <==> old(n) < NBUF
    {
      hide Ring, InRange, CacheInv, SlotSettled, Settled, Apply, SetHead;
      ghost var bs, fs1 := block[..n], Apply(fs, a);
      RestSize(bs, 0);
      AfterLogging(L, fs, bs, data);
      assert b == InstallingWrites(L, fs1[L.start], bs, fs1[L.start+1..L.start+1+n]);
      ok, k := LogAndCommit(pid, fs, Rest(bs, 0), data, a);
      assert (a + b)[..k] == a[..k] && block[..n] == bs;
      if ok {
        assert a[..k] == a;
        ghost var d1, w1 := bc.disk, bc.writes;
        ghost var j;
        ok, j := InstallAndClear(pid, false, fs1, b);
        assert bc.writes == w1 + b[..j] && bc.disk == Apply(d1, b[..j]);
        assert w1 == old(bc.writes) + a && d1 == Apply(old(bc.disk), a);
        ChainTwo(old(bc.disk), old(bc.writes), a, b, j);
        k := |a| + j;
        assert bc.writes == old(bc.writes) + (a + b)[..k];
      }
    }

    /** commit: its disk writes are exactly CommitWrites, up to the point where it stops; complete,
        every logged block is home, nothing is pinned and the log is empty.  It is complete exactly if
        the transaction leaves a buffer unpinned. */
    method Commit(pid: nat, ghost fs: Disk, ghost ws: seq<Write>) returns (ok: bool, ghost k: nat)
      requires Valid() && Shows(fs, pid, Rest(block[..n], 0)) && NoDuplicates(block[..n]) && EmptyLog(L, bc.disk)
      requires ws == CommitWrites(L, bc.disk[L.start], block[..n], Contents(fs, block[..n]))
      modifies bc.buf, bc`order, bc`disk, bc`writes, `n
      ensures Valid() && k <= |ws| && (ok ==> k == |ws| && n == 0)
      ensures Issued(ws, k, old(bc.disk), old(bc.writes))
      ensures ok ==> Shows(bc.disk, pid, {}) && EmptyLog(L, bc.disk) && SameHome(L, bc.disk, fs)
      ensures !ok ==> NoBuffers()
      ensures ok <==> old(n) < NBUF
    {
      hide Ring, InRange, CacheInv, SlotSettled, Settled;
      ghost var bs, data := block[..n], Contents(fs, block[..n]);
      Uncommitted(fs, pid);
      CommitCompletes(L, bc.disk, fs, bs);
      ok, k := true, 0;
      ghost var fs' := fs;
      if n > 0 {
        ghost var a := LoggingWrites(L, fs[L.start], bs, data);
        ghost var b := InstallingWrites(L, SetHead(fs[L.start], bs), bs, data);
        ok, k := CommitBlocks(pid, fs, data, a, b);
        fs' := Apply(Apply(fs, a), b);
      } else {
        assert bs == [] && Rest(bs, 0) == {};
      }
      if ok {
        assert ws[..k] == ws;
        Finished(pid, fs');
      }
    }

    lemma Finished(pid: nat, fs: Disk)
      requires Shows(fs, pid, {})
      ensures fs == bc.disk
    {
      ShowsDisk(bc.Abs(), bc.disk, fs, pid, dev);
    }

    /** recover_from_log, from a fresh cache: its disk writes are exactly RecoveryWrites, to the
        last; the disk is then the recovered one and nothing is pinned.  It never lacks a buffer. */
    method RecoverFromLog(pid: nat, ghost ws: seq<Write>) returns (ok: bool, ghost k: nat)
      requires Valid() && Shows(bc.disk, pid, {}) && Recoverable(L, bc.disk) && ws == RecoveryWrites(L, bc.disk)
      modifies bc.buf, bc`order, bc`disk, bc`writes, block, `n
      ensures ok && Valid() && k == |ws| && n == 0 && Issued(ws, k, old(bc.disk), old(bc.writes))
      ensures bc.disk == Recover(L, old(bc.disk)) && Shows(bc.disk, pid, {})
    {
      hide Ring, InRange, CacheInv, SlotSettled, Settled;
      ghost var d := bc.disk;
      k := 0;
      ok := ReadHead(pid, d);
      if ok {
        ok, k := InstallAndClear(pid, true, d, ws);
        if ok {
          assert ws[..k] == ws;
          Finished(pid, Apply(d, ws));
        }
      }
    }
  }
}
