/** Which blocks a write gives to log_write: the data blocks it stores to, the blocks it allocates with their bitmap
    blocks, the indirect block it lists new blocks in, and the inode's block. */
module FileLog {
  import opened Blocks
  import opened Files
  import opened Sets

  const MAXOPBLOCKS: nat := 10
  const MAX_CHUNK: nat := 3072           // ((MAXOPBLOCKS-1-1-2) / 2) * BSIZE

  // ---------- slots filled

  /** From s to s', slots of file i may be filled and nothing else happens to any slot. */
  ghost predicate Extends(s: Fs, s': Fs, i: nat) {
    && s'.bmapstart == s.bmapstart
    && forall k: Slot :: ExtendsAt(s, s', i, k)
  }

  ghost predicate ExtendsAt(s: Fs, s': Fs, i: nat, k: Slot) {
    k.0 != i || Addr(s, k) != 0 ==> Addr(s', k) == Addr(s, k)
  }

  ghost predicate Newly(s: Fs, s': Fs, i: nat, x: nat) {
    Addr(s, (i, x)) == 0 && Addr(s', (i, x)) != 0
  }

  lemma ExtendsTrans(s: Fs, t: Fs, u: Fs, i: nat)
    requires Extends(s, t, i) && Extends(t, u, i)
    ensures Extends(s, u, i)
  {
    hide Addr;
    forall k: Slot ensures ExtendsAt(s, u, i, k) {
      assert ExtendsAt(s, t, i, k) && ExtendsAt(t, u, i, k);
    }
  }

  // ---------- blocks logged

  /** The blocks that were allocated. */
  ghost function NewAddrs(s: Fs, s': Fs, i: nat): set<nat> {
    set x: nat | x < SLOTS && Newly(s, s', i, x) :: Addr(s', (i, x))
  }

  /** Their bitmap blocks. */
  ghost function NewMaps(s: Fs, s': Fs, i: nat): set<nat> {
    set x: nat | x < SLOTS && Newly(s, s', i, x) :: Bblock(s', Addr(s', (i, x)))
  }

  /** The indirect block, if it lists new blocks. */
  ghost function Listing(s: Fs, s': Fs, i: nat): set<nat> {
    set x: nat | NDIRECT < x < SLOTS && Newly(s, s', i, x) :: Addr(s', (i, NDIRECT))
  }

  ghost function NewLog(s: Fs, s': Fs, i: nat): set<nat> {
    NewAddrs(s, s', i) + NewMaps(s, s', i) + Listing(s, s', i)
  }

  /** The first block number after the n bytes at off. */
  function Upto(off: nat, n: nat): nat {
    if n == 0 then off / BSIZE else (off + n - 1) / BSIZE + 1
  }

  /** The data blocks of blocks a..b of file i. */
  ghost function DataIn(s: Fs, i: nat, a: nat, b: nat): set<nat> {
    set bn: nat | a <= bn < b :: Addr(s, (i, SlotOf(bn)))
  }

  /** Everything a write of n bytes at off logs, apart from the inode's block. */
  ghost function WriteLog(s: Fs, s': Fs, i: nat, off: nat, n: nat): set<nat> {
    DataIn(s', i, off / BSIZE, Upto(off, n)) + NewLog(s, s', i)
  }

  // ---------- one slot

  /** Only slot x of file i may have been filled. */
  ghost predicate OnlySlot(s: Fs, s': Fs, i: nat, x: nat) {
    && s'.bmapstart == s.bmapstart && x < SLOTS
    && (forall k: Slot | k != (i, x) :: Addr(s', k) == Addr(s, k))
    && (Addr(s, (i, x)) != 0 ==> Addr(s', (i, x)) == Addr(s, (i, x)))
  }

  lemma OnlySlotExtends(s: Fs, s': Fs, i: nat, x: nat)
    requires OnlySlot(s, s', i, x)
    ensures Extends(s, s', i)
  {
    hide Addr;
  }

  /** What filling one slot logs. */
  ghost function SlotLog(s: Fs, s': Fs, i: nat, x: nat): set<nat> {
    if !Newly(s, s', i, x) then {}
    else
      var b := Addr(s', (i, x));
      {b, Bblock(s', b)} + if x > NDIRECT then {Addr(s', (i, NDIRECT))} else {}
  }

  lemma OnlySlotLog(s: Fs, s': Fs, i: nat, x: nat)
    requires OnlySlot(s, s', i, x)
    ensures NewLog(s, s', i) == SlotLog(s, s', i, x)
  {
    hide Addr, Bblock;
    forall y: nat | y != x ensures !Newly(s, s', i, y) {
      assert (i, y) != (i, x);
      assert Addr(s', (i, y)) == Addr(s, (i, y));
    }
  }

  // ---------- one after the other

  /** Once the indirect block is there it stays, and without one nothing is listed. */
  lemma IndirectStays(s: Fs, t: Fs, u: Fs, i: nat, x: nat)
    requires Extends(t, u, i) && NDIRECT < x < SLOTS && Newly(s, t, i, x)
    ensures Addr(u, (i, NDIRECT)) == Addr(t, (i, NDIRECT))
  {
    Unlisted(t, i, x);
    assert ExtendsAt(t, u, i, (i, NDIRECT));
  }

  lemma Unlisted(t: Fs, i: nat, x: nat)
    requires NDIRECT < x < SLOTS && Addr(t, (i, x)) != 0
    ensures Addr(t, (i, NDIRECT)) != 0
  {
  }

  lemma NewlyTrans(s: Fs, t: Fs, u: Fs, i: nat, x: nat)
    requires Extends(s, t, i) && Extends(t, u, i)
    ensures Newly(s, u, i, x) <==> Newly(s, t, i, x) || Newly(t, u, i, x)
    ensures Newly(s, t, i, x) ==> Addr(u, (i, x)) == Addr(t, (i, x))
  {
    hide Addr;
    assert ExtendsAt(s, t, i, (i, x)) && ExtendsAt(t, u, i, (i, x));
  }

  ghost predicate Joined(s: Fs, t: Fs, u: Fs, i: nat) {
    && t.bmapstart == u.bmapstart
    && forall x: nat :: JoinedAt(s, t, u, i, x)
  }

  ghost predicate JoinedAt(s: Fs, t: Fs, u: Fs, i: nat, x: nat) {
    && (Newly(s, u, i, x) <==> Newly(s, t, i, x) || Newly(t, u, i, x))
    && (Newly(s, t, i, x) ==> Addr(u, (i, x)) == Addr(t, (i, x)))
    && (NDIRECT < x < SLOTS && Newly(s, t, i, x) ==> Addr(u, (i, NDIRECT)) == Addr(t, (i, NDIRECT)))
  }

  lemma JoinedIs(s: Fs, t: Fs, u: Fs, i: nat)
    requires Extends(s, t, i) && Extends(t, u, i)
    ensures Joined(s, t, u, i)
  {
    hide Addr;
    forall x: nat ensures JoinedAt(s, t, u, i, x) {
      NewlyTrans(s, t, u, i, x);
      if NDIRECT < x < SLOTS && Newly(s, t, i, x) {
        IndirectStays(s, t, u, i, x);
      }
    }
  }

  lemma NewAddrsTrans(s: Fs, t: Fs, u: Fs, i: nat)
    requires Joined(s, t, u, i)
    ensures NewAddrs(s, u, i) == NewAddrs(s, t, i) + NewAddrs(t, u, i)
  {
    hide Addr, Newly;
    forall b | b in NewAddrs(s, u, i) ensures b in NewAddrs(s, t, i) + NewAddrs(t, u, i) {
      var x: nat :| x < SLOTS && Newly(s, u, i, x) && b == Addr(u, (i, x));
      assert JoinedAt(s, t, u, i, x);
    }
    forall b | b in NewAddrs(s, t, i) ensures b in NewAddrs(s, u, i) {
      var x: nat :| x < SLOTS && Newly(s, t, i, x) && b == Addr(t, (i, x));
      assert JoinedAt(s, t, u, i, x);
    }
    forall b | b in NewAddrs(t, u, i) ensures b in NewAddrs(s, u, i) {
      var x: nat :| x < SLOTS && Newly(t, u, i, x) && b == Addr(u, (i, x));
      assert JoinedAt(s, t, u, i, x);
    }
  }

  lemma NewMapsTrans(s: Fs, t: Fs, u: Fs, i: nat)
    requires Joined(s, t, u, i)
    ensures NewMaps(s, u, i) == NewMaps(s, t, i) + NewMaps(t, u, i)
  {
    hide Addr, Newly;
    forall b | b in NewMaps(s, u, i) ensures b in NewMaps(s, t, i) + NewMaps(t, u, i) {
      var x: nat :| x < SLOTS && Newly(s, u, i, x) && b == Bblock(u, Addr(u, (i, x)));
      assert JoinedAt(s, t, u, i, x);
    }
    forall b | b in NewMaps(s, t, i) ensures b in NewMaps(s, u, i) {
      var x: nat :| x < SLOTS && Newly(s, t, i, x) && b == Bblock(t, Addr(t, (i, x)));
      assert JoinedAt(s, t, u, i, x);
    }
    forall b | b in NewMaps(t, u, i) ensures b in NewMaps(s, u, i) {
      var x: nat :| x < SLOTS && Newly(t, u, i, x) && b == Bblock(u, Addr(u, (i, x)));
      assert JoinedAt(s, t, u, i, x);
    }
  }

  lemma ListingTrans(s: Fs, t: Fs, u: Fs, i: nat)
    requires Joined(s, t, u, i)
    ensures Listing(s, u, i) == Listing(s, t, i) + Listing(t, u, i)
  {
    hide Addr, Newly;
    forall b | b in Listing(s, u, i) ensures b in Listing(s, t, i) + Listing(t, u, i) {
      var x: nat :| NDIRECT < x < SLOTS && Newly(s, u, i, x);
      assert JoinedAt(s, t, u, i, x);
    }
    forall b | b in Listing(s, t, i) ensures b in Listing(s, u, i) {
      var x: nat :| NDIRECT < x < SLOTS && Newly(s, t, i, x);
      assert JoinedAt(s, t, u, i, x);
    }
    forall b | b in Listing(t, u, i) ensures b in Listing(s, u, i) {
      var x: nat :| NDIRECT < x < SLOTS && Newly(t, u, i, x);
      assert JoinedAt(s, t, u, i, x);
    }
  }

  /** What two extensions log, one after the other, is what both together log. */
  lemma NewLogTrans(s: Fs, t: Fs, u: Fs, i: nat)
    requires Extends(s, t, i) && Extends(t, u, i)
    ensures NewLog(s, u, i) == NewLog(s, t, i) + NewLog(t, u, i)
  {
    hide Extends, Joined, NewAddrs, NewMaps, Listing;
    JoinedIs(s, t, u, i);
    NewAddrsTrans(s, t, u, i);
    NewMapsTrans(s, t, u, i);
    ListingTrans(s, t, u, i);
  }

  /** Where every slot is as in t, the log is as in t. */
  lemma NewLogSame(s: Fs, t: Fs, u: Fs, i: nat)
    requires u.bmapstart == t.bmapstart && forall k: Slot :: Addr(u, k) == Addr(t, k)
    ensures NewLog(s, u, i) == NewLog(s, t, i) && (Extends(s, t, i) ==> Extends(s, u, i))
    ensures forall a: nat, b: nat :: DataIn(u, i, a, b) == DataIn(t, i, a, b)
  {
    hide Addr;
    assert forall x: nat :: Newly(s, u, i, x) == Newly(s, t, i, x);
    if Extends(s, t, i) {
      forall k: Slot ensures ExtendsAt(s, u, i, k) {
        assert ExtendsAt(s, t, i, k);
      }
    }
  }

  // ---------- pass by pass

  /** Only blocks a..b of file i, and its indirect slot, may have been filled. */
  ghost predicate OnlySpan(s: Fs, s': Fs, i: nat, a: nat, b: nat) {
    forall bn: nat | bn < a || bn >= b :: SameBlock(s, s', i, bn)
  }

  ghost predicate SameBlock(s: Fs, s': Fs, i: nat, bn: nat) {
    Addr(s', (i, SlotOf(bn))) == Addr(s, (i, SlotOf(bn)))
  }

  lemma UptoStep(off: nat, tot: nat, m: nat)
    requires m > 0 && (off + tot) % BSIZE + m <= BSIZE
    ensures Upto(off, tot + m) == (off + tot) / BSIZE + 1
    ensures (off + tot) / BSIZE <= Upto(off, tot) <= Upto(off, tot + m) && off / BSIZE <= (off + tot) / BSIZE
  {
  }

  /** A pass adds one block to the data blocks. */
  lemma DataStep(s: Fs, s': Fs, i: nat, off: nat, tot: nat, m: nat)
    requires Extends(s, s', i) && m > 0 && (off + tot) % BSIZE + m <= BSIZE
    requires forall bn: nat | off / BSIZE <= bn < Upto(off, tot) :: BlockMapped(s, i, bn)
    ensures DataIn(s', i, off / BSIZE, Upto(off, tot + m)) ==
      DataIn(s, i, off / BSIZE, Upto(off, tot)) + {Addr(s', (i, SlotOf((off + tot) / BSIZE)))}
  {
    UptoStep(off, tot, m);
    forall bn: nat | off / BSIZE <= bn < Upto(off, tot) ensures Addr(s', (i, SlotOf(bn))) == Addr(s, (i, SlotOf(bn))) {
      assert BlockMapped(s, i, bn);
      assert ExtendsAt(s, s', i, (i, SlotOf(bn)));
    }
    hide Addr, SlotOf, Upto, Extends, BlockMapped;
  }

  // ---------- counting

  ghost function MapsIn(s: Fs, i: nat, a: nat, b: nat): set<nat> {
    set bn: nat | a <= bn < b :: Bblock(s, Addr(s, (i, SlotOf(bn))))
  }

  lemma {:induction false} DataSize(s: Fs, i: nat, a: nat, b: nat)
    requires a <= b
    ensures |DataIn(s, i, a, b)| <= b - a && |MapsIn(s, i, a, b)| <= b - a
    decreases b
  {
    hide Addr, SlotOf, Bblock;
    if a == b {
      assert DataIn(s, i, a, b) == {} && MapsIn(s, i, a, b) == {};
    } else {
      DataSize(s, i, a, b - 1);
      assert DataIn(s, i, a, b) == DataIn(s, i, a, b - 1) + {Addr(s, (i, SlotOf(b - 1)))};
      assert MapsIn(s, i, a, b) == MapsIn(s, i, a, b - 1) + {Bblock(s, Addr(s, (i, SlotOf(b - 1))))};
    }
  }

  /** The block number a data slot belongs to. */
  function BlockOf(x: nat): nat {
    if x < NDIRECT then x else x - 1
  }

  lemma SlotOfBlockOf(x: nat)
    requires x != NDIRECT
    ensures SlotOf(BlockOf(x)) == x
  {
  }

  /** Everything logged is a data block of the span, a bitmap block of a new block in it, the indirect block or the
      indirect block's bitmap block. */
  lemma LogWithin(s: Fs, s': Fs, i: nat, a: nat, c: nat, b: nat)
    requires OnlySpan(s, s', i, a, b) && a <= c && forall bn: nat | a <= bn < c :: BlockMapped(s, i, bn)
    ensures var d := Addr(s', (i, NDIRECT));
      DataIn(s', i, a, b) + NewLog(s, s', i) <= DataIn(s', i, a, b) + MapsIn(s', i, c, b) + {d, Bblock(s', d)}
  {
    hide Addr, Bblock;
    forall x: nat | x < SLOTS && Newly(s, s', i, x)
      ensures x == NDIRECT || (c <= BlockOf(x) < b && SlotOf(BlockOf(x)) == x)
    {
      if x != NDIRECT {
        SlotOfBlockOf(x);
        var bn := BlockOf(x);
        assert bn < a || bn >= b ==> SameBlock(s, s', i, bn);
        assert a <= bn < c ==> BlockMapped(s, i, bn);
      }
    }
    hide SlotOf, BlockOf, OnlySpan;
    NewAddrsWithin(s, s', i, a, c, b);
    NewMapsWithin(s, s', i, c, b);
  }

  lemma NewAddrsWithin(s: Fs, s': Fs, i: nat, a: nat, c: nat, b: nat)
    requires forall x: nat | x < SLOTS && Newly(s, s', i, x) ::
      x == NDIRECT || (c <= BlockOf(x) < b && SlotOf(BlockOf(x)) == x)
    requires a <= c
    ensures NewAddrs(s, s', i) <= DataIn(s', i, a, b) + {Addr(s', (i, NDIRECT))}
  {
    hide Addr, SlotOf, BlockOf;
    forall y | y in NewAddrs(s, s', i) ensures y in DataIn(s', i, a, b) + {Addr(s', (i, NDIRECT))} {
      var x: nat :| x < SLOTS && Newly(s, s', i, x) && y == Addr(s', (i, x));
      if x != NDIRECT {
        assert SlotOf(BlockOf(x)) == x;
      }
    }
  }

  lemma NewMapsWithin(s: Fs, s': Fs, i: nat, c: nat, b: nat)
    requires forall x: nat | x < SLOTS && Newly(s, s', i, x) ::
      x == NDIRECT || (c <= BlockOf(x) < b && SlotOf(BlockOf(x)) == x)
    ensures NewMaps(s, s', i) <= MapsIn(s', i, c, b) + {Bblock(s', Addr(s', (i, NDIRECT)))}
  {
    hide Addr, SlotOf, BlockOf, Bblock;
    forall y | y in NewMaps(s, s', i) ensures y in MapsIn(s', i, c, b) + {Bblock(s', Addr(s', (i, NDIRECT)))} {
      var x: nat :| x < SLOTS && Newly(s, s', i, x) && y == Bblock(s', Addr(s', (i, x)));
      if x != NDIRECT {
        assert SlotOf(BlockOf(x)) == x;
      }
    }
  }

  function Unaligned(off: nat): nat { if off % BSIZE == 0 then 0 else 1 }

  lemma UptoBound(off: nat, n: nat)
    requires n <= MAX_CHUNK
    ensures off / BSIZE <= Upto(off, n)
    ensures n > 0 ==> off / BSIZE + Unaligned(off) <= Upto(off, n)
    ensures 2 * (Upto(off, n) - off / BSIZE) - Unaligned(off) <= 7
  {
  }

  /** A write of at most MAX_CHUNK bytes fits in its share of the log wherever it stops, for every offset and
      alignment: an unaligned one begins in a block that is mapped already. */
  lemma LogCount(s: Fs, s': Fs, i: nat, off: nat, tot: nat, n: nat, ib: nat)
    requires tot <= n <= MAX_CHUNK && OnlySpan(s, s', i, off / BSIZE, Upto(off, if tot < n then tot + 1 else tot))
    requires off % BSIZE != 0 ==> BlockMapped(s, i, off / BSIZE)
    ensures |WriteLog(s, s', i, off, tot) + {ib}| <= MAXOPBLOCKS
  {
    hide Addr, NewLog, DataIn, MapsIn, OnlySpan, Upto;
    var k := if tot < n then tot + 1 else tot;
    var a, b := off / BSIZE, Upto(off, k);
    var c := if k == 0 then a else a + Unaligned(off);
    UptoBound(off, k);
    LogWithin(s, s', i, a, c, b);
    var d := Addr(s', (i, NDIRECT));
    var data, maps, ind := DataIn(s', i, a, b), MapsIn(s', i, c, b), {d, Bblock(s', d)};
    DataSize(s', i, a, b);
    DataSize(s', i, c, b);
    FewerData(s', i, off, tot, k);
    var all := data + maps + ind + {ib};
    Subset(WriteLog(s, s', i, off, tot) + {ib}, all);
    SizeOfUnion(data, maps);
    SizeOfUnion(data + maps, ind);
    SizeOfUnion(data + maps + ind, {ib});
    UptoZero(off, k);
  }

  lemma FewerData(s: Fs, i: nat, off: nat, tot: nat, n: nat)
    requires tot <= n
    ensures DataIn(s, i, off / BSIZE, Upto(off, tot)) <= DataIn(s, i, off / BSIZE, Upto(off, n))
  {
    assert Upto(off, tot) <= Upto(off, n);
    hide Addr, Upto, SlotOf;
  }

  lemma UptoZero(off: nat, n: nat)
    ensures n == 0 ==> Upto(off, n) == off / BSIZE
  {
  }
}
