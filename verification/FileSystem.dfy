/** balloc, bfree, bmap, itrunc, readi and writei of fs.c and the loop of filewrite, over the block map that
    the buffer cache and the log provide. */
module FileSystem {
  import opened Blocks
  import opened Bitmap
  import opened Files
  import opened FileBytes
  import opened FileLog
  import opened Sets

  class Disk {
    const size: nat
    const bmapstart: nat
    const datastart: nat
    const inodestart: nat
    var disk: map<nat, Block>
    var inodes: map<nat, Inode>
    ghost var own: Owners
    ghost var logged: set<nat>         // blocks given to log_write since the last begin_op

    constructor (s: Fs, inodestart: nat, ghost own: Owners)
      ensures Model() == s && this.inodestart == inodestart && this.own == own && logged == {}
    {
      size, bmapstart, datastart, disk, inodes := s.size, s.bmapstart, s.datastart, s.disk, s.inodes;
      this.inodestart, this.own, logged := inodestart, own, {};
    }

    ghost function Model(): Fs
      reads this
    {
      Fs(size, bmapstart, datastart, disk, inodes)
    }

    ghost predicate Good(loose: set<nat>)
      reads this
    {
      Inv(Model(), own, loose)
    }

    /** balloc: the first free block, marked and zeroed; 0 exactly when none is free. */
    method Balloc() returns (r: nat)
      requires Good({})
      modifies this`disk, this`logged
      ensures r == 0 ==> Model() == old(Model()) && logged == old(logged) && Full(Model())
      ensures r != 0 ==> r < size && !Used(old(Model()), r) && (forall c: nat | c < r :: Used(old(Model()), c))
      ensures r != 0 ==> Bblock(Model(), r) in old(disk) && Model() == Alloc(old(Model()), r)
      ensures r != 0 ==> logged == old(logged) + {Bblock(Model(), r), r}
    {
      hide BlockBit, SetBlockBit, ZeroBlock, Inv;
      BootBlockUsed(Model(), own);
      var b := 0;
      while b < size
        invariant b % BPB == 0 && disk == old(disk) && logged == old(logged)
        invariant forall c: nat | c < b && c < size :: Used(Model(), c)
      {
        BblockBelow(Model(), b);
        var bp := disk[b / BPB + bmapstart];
        var bi := 0;
        while bi < BPB && b + bi < size
          invariant bi <= BPB && disk == old(disk) && logged == old(logged)
          invariant forall c: nat | c < b + bi && c < size :: Used(Model(), c)
        {
          assert (b + bi) / BPB == b / BPB && (b + bi) % BPB == bi;
          if !BlockBit(bp, bi) {
            r := b + bi;
            disk := disk[b / BPB + bmapstart := SetBlockBit(bp, bi, true)];
            disk := disk[r := ZeroBlock()];
            logged := logged + {b / BPB + bmapstart, r};
            assert !Used(old(Model()), r);
            return;
          }
          bi := bi + 1;
        }
        b := b + BPB;
      }
      return 0;
    }

    /** bfree: the block's bit is cleared and nothing else; it must be set. */
    method Bfree(b: nat)
      requires Geometry(Model()) && b < size && Used(Model(), b)
      modifies this`disk, this`logged
      ensures Bblock(Model(), b) in old(disk) && Model() == Mark(old(Model()), b, false)
    {
      BblockBelow(Model(), b);
      var bp := disk[b / BPB + bmapstart];
      var bi := b % BPB;
      if !BlockBit(bp, bi) {
        assert false;
      }
      disk := disk[b / BPB + bmapstart := SetBlockBit(bp, bi, false)];
      logged := logged + {b / BPB + bmapstart};
    }

    /** The part of bmap that makes sure ip->addrs[x] is set. */
    method FillDirect(i: nat, x: nat) returns (addr: nat)
      requires Good({}) && i in inodes && x <= NDIRECT
      modifies this
      ensures Good({}) && Filled(old(Model()), Model(), (i, x), addr)
      ensures logged == old(logged) + SlotLog(old(Model()), Model(), i, x)
    {
      hide Geometry, OwnAt, OwnAll, BitsOk, Sized, Used, ZeroBlock, Alloc, Attached, Keeps, Agree;
      ghost var s := Model();
      DirectAddr(s, i, x);
      addr := inodes[i].addrs[x];
      if addr == 0 {
        addr := Balloc();
        if addr == 0 {
          FilledSame(s, own, (i, x));
          return 0;
        }
        ghost var s1 := Model();
        AllocInv(s, own, {}, addr);
        assert {} + {addr} == {addr};
        FitsUint(s, addr);
        AttachDirectIs(s1, i, x, addr);
        inodes := inodes[i := inodes[i].(addrs := inodes[i].addrs[x := addr])];
        assert Model() == AttachDirect(s1, i, x, addr);
        AttachedInv(s1, Model(), (i, x), addr, own, {addr});
        AttachDirectKept(s1, own, {addr}, i, x, addr);
        FilledSteps(s, s1, Model(), own, (i, x), addr);
        own := own[addr := (i, x)];
        assert {addr} - {addr} == {};
      } else {
        FilledSame(s, own, (i, x));
      }
    }

    /** The part of bmap that makes sure the indirect block lists a block at j. */
    method FillIndirect(i: nat, j: nat) returns (addr: nat)
      requires Good({}) && i in inodes && j < WORDS && inodes[i].addrs[NDIRECT] != 0
      modifies this
      ensures Good({}) && Filled(old(Model()), Model(), (i, NDIRECT + 1 + j), addr) && inodes == old(inodes)
      ensures logged == old(logged) + SlotLog(old(Model()), Model(), i, NDIRECT + 1 + j)
    {
      hide Geometry, OwnAt, OwnAll, BitsOk, Sized, Used, ZeroBlock, Alloc, Attached, Keeps, Agree, SetWord, Word;
      ghost var s := Model();
      ghost var slot: Slot := (i, NDIRECT + 1 + j);
      IndirectAddr(s, own, i, j);
      var d := inodes[i].addrs[NDIRECT];
      var bp := disk[d];
      addr := Word(bp, j);
      if addr == 0 {
        addr := Balloc();
        if addr == 0 {
          FilledSame(s, own, slot);
          return 0;
        }
        ghost var s1 := Model();
        AllocInv(s, own, {}, addr);
        assert {} + {addr} == {addr};
        FitsUint(s, addr);
        IndirectKept(s, s1, own, i, j);
        AttachIndirectIs(s1, own, {addr}, i, j, addr);
        disk := disk[d := SetWord(bp, j, addr)];
        logged := logged + {d};
        assert Model() == AttachIndirect(s1, i, j, addr);
        AttachedInv(s1, Model(), slot, addr, own, {addr});
        AttachIndirectKept(s1, own, {addr}, i, j, addr);
        FilledSteps(s, s1, Model(), own, slot, addr);
        own := own[addr := slot];
        assert {addr} - {addr} == {};
      } else {
        FilledSame(s, own, slot);
      }
    }

    /** bmap: the disk block of block bn of file i, allocated if need be; 0 only when the disk is full. */
    method Bmap(i: nat, bn: nat) returns (addr: nat)
      requires Good({}) && i in inodes && bn < MAXFILE
      modifies this
      ensures Good({}) && MapsTo(old(Model()), Model(), i, bn, addr)
      ensures Extends(old(Model()), Model(), i) && logged == old(logged) + NewLog(old(Model()), Model(), i)
      ensures BlockMapped(old(Model()), i, bn) ==> logged == old(logged)
    {
      hide Inv, Filled, SlotLog, Keeps, Addr, Extends, NewLog;
      ghost var s := Model();
      Behind(s, i, bn);
      if bn < NDIRECT {
        addr := FillDirect(i, bn);
        MapsDirect(s, Model(), i, bn, addr);
        FilledLog(s, Model(), i, bn, addr);
        return;
      }
      addr := FillDirect(i, NDIRECT);
      ghost var s1 := Model();
      FilledIndirect(s, s1, i, addr);
      FilledLog(s, s1, i, NDIRECT, addr);
      if addr == 0 {
        MapsNone(s, s1, i, bn);
        return;
      }
      addr := FillIndirect(i, bn - NDIRECT);
      MapsIndirect(s, s1, Model(), i, bn, addr);
      FilledLog(s1, Model(), i, bn + 1, addr);
      ExtendsTrans(s, s1, Model(), i);
      NewLogTrans(s, s1, Model(), i);
    }

    /** The body of writei's loop: the bytes of src from tot on that fit in one block.  None are stored if bmap fails.
        If copyin cannot read them all, those it can read are stored but the block is not logged. */
    method StoreChunk(i: nat, off: nat, src: seq<byte>, tot: nat, readable: nat, ghost s0: Fs)
      returns (m: nat, ghost part: nat)
      requires Good({}) && i in inodes && tot < |src| && off + |src| <= MAXFILE * BSIZE
      requires Progress(s0, Model(), i, off, src, tot)
      modifies this
      ensures Good({}) && tot + m + part <= |src| && Progress(s0, Model(), i, off, src, tot + m + part)
      ensures m == 0 ==> Stops(Model(), i, off, |src|, readable, tot, part)
      ensures m != 0 ==> m == Room(off + tot, |src| - tot) && part == 0
      ensures Extends(old(Model()), Model(), i) && OtherBlocks(old(Model()), Model(), i, (off + tot) / BSIZE)
      ensures logged == old(logged) + NewLog(old(Model()), Model(), i)
        + if m == 0 then {} else {Addr(Model(), (i, SlotOf((off + tot) / BSIZE)))}
    {
      hide Inv, Progress, Keeps, BlockMapped, Addr, Full, Extends, NewLog, OtherBlocks;
      ghost var s := Model();
      ghost var bn := (off + tot) / BSIZE;
      var addr := Bmap(i, (off + tot) / BSIZE);
      ghost var s1 := Model();
      MapsFacts(s, s1, own, i, bn, addr);
      InvSized(s, old(own));
      ProgressKeeps(s0, s, s1, i, off, src, tot);
      if addr == 0 {
        return 0, 0;
      }
      m := Room(off + tot, |src| - tot);
      var copied := if readable >= tot + m then m else if readable > tot then readable - tot else 0;
      ProgressWrite(s0, s1, own, i, off, src, tot, copied);
      WriteDataInv(s1, own, {}, addr, Patched(s1.disk[addr], (off + tot) % BSIZE, src, tot, copied));
      disk := disk[addr := Patched(disk[addr], (off + tot) % BSIZE, src, tot, copied)];
      NewLogSame(s, s1, Model(), i);
      OtherBlocksSame(s, s1, Model(), i, bn);
      MappedSame(s1, Model(), i, bn);
      if copied < m {
        return 0, copied;
      }
      logged := logged + {addr};
      part := 0;
    }

    /** The loop of writei, and exactly the blocks it logs. */
    method WriteLoop(i: nat, src: seq<byte>, off: nat, readable: nat) returns (tot: nat, ghost part: nat)
      requires Good({}) && i in inodes && off <= inodes[i].size && off + |src| <= MAXFILE * BSIZE
      modifies this
      ensures Good({}) && tot + part <= |src| && Progress(old(Model()), Model(), i, off, src, tot + part)
      ensures Stops(Model(), i, off, |src|, readable, tot, part)
      ensures Extends(old(Model()), Model(), i)
      ensures OnlySpan(old(Model()), Model(), i, off / BSIZE, Last(off, tot, |src|))
      ensures logged == old(logged) + WriteLog(old(Model()), Model(), i, off, tot)
    {
      hide Inv, Progress, Full, BlockMapped, Addr, Extends, WriteLog, OnlySpan, OtherBlocks, NewLog, Room, Upto, Stops;
      ghost var s0 := Model();
      tot, part := 0, 0;
      ProgressStart(s0, i, off, src);
      LogStart(s0, i, off);
      while tot < |src|
        invariant tot <= |src| && Good({}) && i in inodes && Progress(s0, Model(), i, off, src, tot) && part == 0
        invariant Extends(s0, Model(), i) && OnlySpan(s0, Model(), i, off / BSIZE, Upto(off, tot))
        invariant logged == old(logged) + WriteLog(s0, Model(), i, off, tot)
        decreases |src| - tot
      {
        ghost var s, log1 := Model(), logged;
        var m;
        m, part := StoreChunk(i, off, src, tot, readable, s0);
        ProgressShape(s0, Model(), i, off, src, tot + m + part);
        ExtendsTrans(s0, s, Model(), i);
        if m == 0 {
          LogStepNone(s0, s, Model(), i, off, src, tot);
          return;
        }
        LogStep(s0, s, Model(), i, off, src, tot, m);
        tot := tot + m;
      }
      StopsAtEnd(Model(), i, off, |src|, readable);
    }

    /** writei from a source of which the first readable bytes can be read: its answer, the file's new content and every
        other file's, exactly the blocks it logs, and their number for a call of at most MAX_CHUNK bytes.  Where copyin
        fails, the part of the block it read is in the file as far as the file reached, though not in the log. */
    method Writei(i: nat, src: seq<byte>, off: uint, readable: nat) returns (r: int, ghost part: nat)
      requires Good({}) && i in inodes && |src| < UINT_LIMIT
      modifies this
      ensures Good({}) && inodes.Keys == old(inodes.Keys)
      ensures Rejected(old(Model()), i, off, |src|) ==> r == -1 && Model() == old(Model()) && logged == old(logged)
      ensures !Rejected(old(Model()), i, off, |src|) ==> r >= 0
      ensures r >= 0 ==> off <= old(inodes[i].size) && r + part <= |src|
      ensures r >= 0 ==> Content(Model(), i) == Stored(Content(old(Model()), i), off, src, r, part)
      ensures forall j | j in old(inodes) && j != i :: Content(Model(), j) == Content(old(Model()), j)
      ensures r >= 0 ==> Stops(Model(), i, off, |src|, readable, r, part)
      ensures r >= 0 ==> Extends(old(Model()), Model(), i)
      ensures r >= 0 ==> OnlySpan(old(Model()), Model(), i, off / BSIZE, Last(off, r, |src|))
      ensures r >= 0 ==> logged == old(logged) + WriteLog(old(Model()), Model(), i, off, r) + {i / 16 + inodestart}
      ensures r >= 0 ==> forall bn: nat | off / BSIZE <= bn < Upto(off, r) :: BlockMapped(Model(), i, bn)
      ensures old(logged) == {} && |src| <= MAX_CHUNK ==> |logged| <= MAXOPBLOCKS
    {
      hide Inv, Progress, Content, Stored, Full, BlockMapped, Extends, OnlySpan, WriteLog, Upto, Addr, Stops;
      ghost var s0 := Model();
      SizeBound(s0, own, i);
      if off > inodes[i].size || (off + |src|) % UINT_LIMIT < off {
        return -1, 0;
      }
      if off + |src| > MAXFILE * BSIZE {
        return -1, 0;
      }
      FirstMapped(s0, own, i, off);
      var tot;
      tot, part := WriteLoop(i, src, off, readable);
      ghost var s := Model();
      ProgressShape(s0, s, i, off, src, tot + part);
      ProgressBlocks(s0, s, i, off, src, tot, part);
      WriteDone(s0, s, own, i, off, src, tot, part);
      ghost var size := Max(s0.inodes[i].size, off + tot);
      if off + tot > inodes[i].size {
        inodes := inodes[i := inodes[i].(size := off + tot)];
      }
      logged := logged + {i / 16 + inodestart};
      ResizeShape(s, i, size);
      ResizeLog(s0, s, i, size, off, tot, Last(off, tot, |src|));
      StopsResize(s, i, size, off, |src|, readable, tot, part);
      if |src| <= MAX_CHUNK {
        LogCount(s0, Model(), i, off, tot, |src|, i / 16 + inodestart);
      }
      return tot, part;
    }

    /** The loop of readi, for len bytes of the file. */
    method ReadLoop(i: nat, off: nat, len: nat, room: nat) returns (r: int, bytes: seq<byte>)
      requires Good({}) && i in inodes && off + len <= inodes[i].size
      modifies this
      ensures Model() == old(Model()) && logged == old(logged) && Good({})
      ensures r == (if len <= room then len else -1) && |bytes| == (if len <= room then len else room)
      ensures |Content(Model(), i)| == inodes[i].size && bytes == Content(Model(), i)[off..off + |bytes|]
    {
      hide Inv, MapsTo, Byte, BlockMapped, Addr, Content;
      bytes := [];
      SizeBound(Model(), own, i);
      ghost var s := Model();
      ContentAt(s, i);
      while |bytes| < len
        invariant |bytes| <= len && Model() == s && logged == old(logged) && Good({}) && |bytes| <= room
        invariant bytes == Content(s, i)[off..off + |bytes|]
        decreases len - |bytes|
      {
        var at := off + |bytes|;
        SizedMapped(s, own, i, at);
        ghost var before := own;
        var addr := Bmap(i, at / BSIZE);
        MapsMapped(s, Model(), before, i, at / BSIZE, addr);
        var m := Room(at, len - |bytes|);
        var copied := if |bytes| + m > room then room - |bytes| else m;
        SliceBytes(s, own, i, at, copied);
        assert Content(s, i)[off..at] + Content(s, i)[at..at + copied] == Content(s, i)[off..at + copied];
        bytes := bytes + disk[addr][at % BSIZE..at % BSIZE + copied];
        if copied < m {
          return -1, bytes;
        }
      }
      return len, bytes;
    }

    /** readi to a destination with room for so many bytes: the matching slice of the file and its length, or, when it
        does not fit, -1 after the part that does.  Nothing is allocated. */
    method Readi(i: nat, off: uint, n: uint, room: nat) returns (r: int, bytes: seq<byte>)
      requires Good({}) && i in inodes
      modifies this
      ensures Model() == old(Model()) && logged == old(logged) && Good({})
      ensures off > inodes[i].size || off + n >= UINT_LIMIT ==> r == 0 && bytes == []
      ensures !(off > inodes[i].size || off + n >= UINT_LIMIT) ==>
        var want := Content(Model(), i)[off..if off + n > inodes[i].size then inodes[i].size else off + n];
        if |want| <= room then r == |want| && bytes == want else r == -1 && bytes == want[..room]
    {
      hide Inv, Byte;
      if off > inodes[i].size || (off + n) % UINT_LIMIT < off {
        return 0, [];
      }
      SizeBound(Model(), own, i);
      var len: nat := if off + n > inodes[i].size then inodes[i].size - off else n;
      r, bytes := ReadLoop(i, off, len, room);
    }

    /** bfree of the block in slot (i, x) of the file being truncated, if there is one. */
    method FreeSlot(b: nat, ghost i: nat, ghost x: nat, ghost s0: Fs, ghost p: nat, ghost q: nat,
        ghost p': nat, ghost q': nat)
      requires Inv(s0, own, {}) && Same(s0) && i in s0.inodes && x < SLOTS && b == Addr(s0, (i, x))
      requires !Done(x, p, q) && OneMore(x, p, q, p', q') && Freeing(s0, disk, own, i, p, q)
      modifies this`disk, this`logged
      ensures Freeing(s0, disk, own, i, p', q')
    {
      hide Inv, Used, Addr, Freeing, Done, OneMore;
      if b != 0 {
        FreeSlotReady(s0, Model(), own, i, x, p, q);
        ghost var s := Model();
        Bfree(b);
        FreeingStep(s0, s, own, i, x, p, q, p', q');
        MarkDisk(s, s0.(disk := s.disk), b);
      } else {
        FreeingSkip(s0, disk, own, i, x, p, q, p', q');
      }
    }

    ghost predicate Same(s0: Fs)
      reads this
    {
      s0.size == size && s0.bmapstart == bmapstart && s0.datastart == datastart
    }

    /** The first loop of itrunc. */
    method FreeDirect(i: nat)
      requires Good({}) && i in inodes
      modifies this`disk, this`logged, this`inodes
      ensures Freeing(old(Model()), disk, own, i, NDIRECT, NDIRECT + 1)
      ensures i in inodes && inodes == old(inodes)[i := inodes[i]] && inodes[i].size == old(inodes[i].size)
      ensures inodes[i].addrs[NDIRECT] == old(inodes[i].addrs)[NDIRECT]
      ensures forall y | 0 <= y < NDIRECT :: inodes[i].addrs[y] == 0
    {
      hide Inv, Used, Addr, Freeing;
      ghost var s0 := Model();
      FreeingStart(s0, own, i);
      var x := 0;
      while x < NDIRECT
        invariant x <= NDIRECT && Freeing(s0, disk, own, i, x, NDIRECT + 1)
        invariant i in inodes && inodes == s0.inodes[i := inodes[i]] && inodes[i].size == s0.inodes[i].size
        invariant forall y | 0 <= y < x :: inodes[i].addrs[y] == 0
        invariant forall y | x <= y <= NDIRECT :: inodes[i].addrs[y] == s0.inodes[i].addrs[y]
      {
        DirectAddr(s0, i, x);
        FreeSlot(inodes[i].addrs[x], i, x, s0, x, NDIRECT + 1, x + 1, NDIRECT + 1);
        inodes := inodes[i := inodes[i].(addrs := inodes[i].addrs[x := 0])];
        x := x + 1;
      }
    }

    /** The second loop of itrunc: the blocks the indirect block d lists. */
    method FreeListed(i: nat, d: nat, ghost s0: Fs)
      requires Inv(s0, own, {}) && Same(s0) && i in s0.inodes && d == s0.inodes[i].addrs[NDIRECT] != 0
      requires Freeing(s0, disk, own, i, NDIRECT, NDIRECT + 1)
      modifies this`disk, this`logged
      ensures Freeing(s0, disk, own, i, NDIRECT, SLOTS)
    {
      hide Inv, Used, Addr, Freeing, Word;
      FreeingData(s0, disk, own, i, NDIRECT, NDIRECT + 1);
      IndirectAddr(s0, own, i, 0);
      var a := disk[d];
      var j := 0;
      while j < WORDS
        invariant j <= WORDS && Freeing(s0, disk, own, i, NDIRECT, NDIRECT + 1 + j)
      {
        IndirectAddr(s0, own, i, j);
        FreeSlot(Word(a, j), i, NDIRECT + 1 + j, s0, NDIRECT, NDIRECT + 1 + j, NDIRECT, NDIRECT + 2 + j);
        j := j + 1;
      }
    }

    /** itrunc: the file is empty, exactly its own blocks are free again, and no other file changes. */
    method Itrunc(i: nat)
      requires Good({}) && i in inodes
      modifies this
      ensures Good({}) && inodes.Keys == old(inodes.Keys) && Content(Model(), i) == []
      ensures forall j | j in old(inodes) && j != i :: Content(Model(), j) == Content(old(Model()), j)
      ensures forall b: nat | b < size ::
        Used(Model(), b) <==> Used(old(Model()), b) && !(b in old(own) && old(own)[b].0 == i)
    {
      hide Inv, Used, Addr, Freeing, Content, Word, Done, OneMore;
      ghost var s0 := Model();
      FreeDirect(i);
      var d := inodes[i].addrs[NDIRECT];
      if d != 0 {
        FreeListed(i, d, s0);
        DirectAddr(s0, i, NDIRECT);
        LastSlot();
        FreeSlot(d, i, NDIRECT, s0, NDIRECT, SLOTS, NDIRECT + 1, SLOTS);
        inodes := inodes[i := inodes[i].(addrs := inodes[i].addrs[NDIRECT := 0])];
      } else {
        NoneListed(s0, disk, own, i);
      }
      inodes := inodes[i := inodes[i].(size := 0)];
      logged := logged + {i / 16 + inodestart};
      assert inodes[i].addrs == seq(13, _ => 0);
      assert Model() == Emptied(s0, disk, i);
      EmptiedInv(s0, disk, own, i);
      own := map b | b in own && own[b].0 != i :: own[b];
    }

    /** A pass of filewrite's loop: one operation, of n bytes of src from k on. */
    method WritePass(i: nat, src: seq<byte>, k: nat, n: nat, off: uint, readable: nat) returns (r: int, ghost part: nat)
      requires Good({}) && i in inodes && |src| < UINT_LIMIT && k + n <= |src| && n <= MAX_CHUNK
      modifies this
      ensures Good({}) && inodes.Keys == old(inodes.Keys) && |logged| <= MAXOPBLOCKS
      ensures r < 0 ==> off > old(inodes[i].size) || off + n > MAXFILE * BSIZE
      ensures r < 0 ==> r == -1 && part == 0 && Model() == old(Model())
      ensures r >= 0 ==> off <= old(inodes[i].size) && off + n <= MAXFILE * BSIZE && r + part <= n
      ensures r >= 0 ==> Content(Model(), i) == Stored(Content(old(Model()), i), off, src[k..k + n], r, part)
      ensures forall j | j in old(inodes) && j != i :: Content(Model(), j) == Content(old(Model()), j)
      ensures r == n ==> part == 0
      ensures 0 <= r < n ==> Full(Model()) || readable < k + n
      ensures part > 0 ==> k + r + part == readable
    {
      hide Inv, Content, Stored, Full, Extends, OnlySpan, WriteLog, Upto, BlockMapped, Last, Stops;
      logged := {};                                   // begin_op
      var left := if readable > k then readable - k else 0;
      r, part := Writei(i, src[k..k + n], off, left);
      if r >= 0 {
        StopsFacts(Model(), i, off, n, left, r, part);
      } else {
        part := 0;
      }
    }

    /** The loop of filewrite, from file offset off: all of src goes in and the answer is its length, or the answer
        is -1 and what went in is the part of src up to the new offset, and what writei's last copyin could read.  Each
        pass is an operation of its own: ops lists what each of them logs, at most MAXOPBLOCKS blocks. */
    method Filewrite(i: nat, src: seq<byte>, off: uint, readable: nat)
      returns (ret: int, off': nat, ghost part: nat, ghost ops: seq<set<nat>>)
      requires Good({}) && i in inodes && |src| < UINT_LIMIT
      modifies this
      ensures Good({}) && inodes.Keys == old(inodes.Keys)
      ensures off <= off' && off' + part <= off + |src|
      ensures (ret == |src| || ret == -1) && (ret == |src| <==> off' == off + |src|)
      ensures off' > off ==> off <= old(inodes[i].size)
      ensures off <= old(inodes[i].size) ==>
        Content(Model(), i) == Stored(Content(old(Model()), i), off, src, off' - off, part)
      ensures off > old(inodes[i].size) ==> Content(Model(), i) == Content(old(Model()), i)
      ensures forall j | j in old(inodes) && j != i :: Content(Model(), j) == Content(old(Model()), j)
      ensures part > 0 ==> off' - off + part == readable
      ensures ret == -1 ==>
        Full(Model()) || off > old(inodes[i].size) || off + |src| > MAXFILE * BSIZE || readable < |src|
      ensures off' - off <= MAX_CHUNK * |ops| && forall n | 0 <= n < |ops| :: |ops[n]| <= MAXOPBLOCKS
    {
      hide Inv, Content, Stored, Full;
      ghost var c0 := Content(Model(), i);
      ContentAt(Model(), i);
      SizeBound(Model(), own, i);
      off', ops, part := off, [], 0;
      var k: nat := 0;
      StoredNone(c0, off, src);
      while k < |src|
        invariant k <= |src| && off' == off + k && Good({}) && inodes.Keys == old(inodes.Keys) && part == 0
        invariant off <= |c0| ==> Content(Model(), i) == Stored(c0, off, src, k, 0) && off' <= inodes[i].size
        invariant off > |c0| ==> k == 0 && Content(Model(), i) == c0
        invariant forall j | j in old(inodes) && j != i :: Content(Model(), j) == Content(old(Model()), j)
        invariant k > 0 ==> off' <= MAXFILE * BSIZE
        invariant k <= MAX_CHUNK * |ops| && forall n | 0 <= n < |ops| :: |ops[n]| <= MAXOPBLOCKS
      {
        var n1 := if |src| - k > MAX_CHUNK then MAX_CHUNK else |src| - k;
        ghost var s := Model();
        var r;
        r, part := WritePass(i, src, k, n1, off', readable);
        ops := ops + [logged];                          // end_op
        ContentAt(s, i);
        ContentAt(Model(), i);
        if r >= 0 {
          StoredTwice(c0, off, src, k, n1, r, part);
        }
        if r > 0 {
          off' := off' + r;
        }
        if r != n1 {
          return -1, off', part, ops;
        }
        k := k + r;
      }
      return |src|, off', part, ops;
    }
  }

  /** Bytes put in one after the other are put in together. */
  lemma StoredTwice(c: seq<byte>, off: nat, src: seq<byte>, k: nat, n: nat, r: nat, part: nat)
    requires k + n <= |src| && r + part <= n && off <= |c|
    ensures |Stored(c, off, src, k, 0)| >= off + k && |Stored(c, off, src, k + r, part)| >= off + k + r
    ensures Stored(Stored(c, off, src, k, 0), off + k, src[k..k + n], r, part) == Stored(c, off, src, k + r, part)
  {
    var d := Stored(c, off, src, k, 0);
    assert d == Spliced(c, off, src[..k]);
    var x, y := Spliced(d, off + k, src[k..k + n][..r + part]), Spliced(c, off, src[..k + r + part]);
    assert src[k..k + n][..r + part] == src[k..k + r + part];
    assert x == y;
  }

  lemma StoredNone(c: seq<byte>, off: nat, src: seq<byte>)
    ensures off <= |c| ==> Stored(c, off, src, 0, 0) == c
  {
  }

  // ---------- where a write stops

  /** Why writei stops at tot, with part more bytes in the file: it is done, the disk is full, or copyin fails. */
  ghost predicate Stops(s: Fs, i: nat, off: nat, n: nat, readable: nat, tot: nat, part: nat) {
    if tot == n then part == 0
    else
      && tot < n
      && var bn := (off + tot) / BSIZE;
        || (part == 0 && Full(s) && !BlockMapped(s, i, bn))
        || (BlockMapped(s, i, bn) && readable < tot + Room(off + tot, n - tot)
            && part == if readable > tot then readable - tot else 0)
  }

  lemma StopsAtEnd(s: Fs, i: nat, off: nat, n: nat, readable: nat)
    ensures Stops(s, i, off, n, readable, n, 0)
  {
  }

  lemma StopsFacts(s: Fs, i: nat, off: nat, n: nat, readable: nat, tot: nat, part: nat)
    requires Stops(s, i, off, n, readable, tot, part)
    ensures tot <= n && (tot == n ==> part == 0) && (tot < n ==> Full(s) || readable < n)
    ensures part > 0 ==> tot + part == readable
  {
    hide Full, BlockMapped;
  }

  lemma StopsResize(s: Fs, i: nat, size: nat, off: nat, n: nat, readable: nat, tot: nat, part: nat)
    requires i in s.inodes && Stops(s, i, off, n, readable, tot, part)
    ensures Stops(Resize(s, i, size), i, off, n, readable, tot, part)
  {
    hide Addr, Full;
    FullResize(s, i, size);
    ResizeAddr(s, i, size, (i, SlotOf((off + tot) / BSIZE)));
  }

  /** The first block after those a write of n bytes that stops at tot may fill. */
  function Last(off: nat, tot: nat, n: nat): nat {
    Upto(off, if tot < n then tot + 1 else tot)
  }

  // ---------- truncation

  /** The slots dealt with when itrunc has passed the first p and, of those listed, the ones below q. */
  ghost predicate Done(x: nat, p: nat, q: nat) {
    x < p || NDIRECT + 1 <= x < q
  }

  ghost predicate OneMore(x: nat, p: nat, q: nat, p': nat, q': nat) {
    forall y: nat | y < SLOTS :: Done(y, p', q') <==> Done(y, p, q) || y == x
  }

  lemma LastSlot()
    ensures OneMore(NDIRECT, NDIRECT, SLOTS, NDIRECT + 1, SLOTS) && !Done(NDIRECT, NDIRECT, SLOTS)
  {
  }

  ghost predicate FreedBy(own: Owners, i: nat, p: nat, q: nat, b: nat) {
    b in own && own[b].0 == i && Done(own[b].1, p, q)
  }

  /** Of the disk, only bits of the free map differ from s0, and those cleared are of the slots dealt with. */
  ghost predicate Freeing(s0: Fs, d: map<nat, Block>, own: Owners, i: nat, p: nat, q: nat) {
    && d.Keys == s0.disk.Keys
    && (forall b | b in d && b >= s0.datastart :: d[b] == s0.disk[b])
    && (forall c: nat | c < s0.size :: Used(s0.(disk := d), c) <==> Used(s0, c) && !FreedBy(own, i, p, q, c))
  }

  lemma FreeingStart(s0: Fs, own: Owners, i: nat)
    ensures Freeing(s0, s0.disk, own, i, 0, NDIRECT + 1)
  {
    assert s0.(disk := s0.disk) == s0;
  }

  lemma FreeingData(s0: Fs, d: map<nat, Block>, own: Owners, i: nat, p: nat, q: nat)
    requires Inv(s0, own, {}) && Freeing(s0, d, own, i, p, q)
    ensures forall b | b in own :: b in s0.disk && b in d && d[b] == s0.disk[b]
  {
    hide Used, Sized, BitsOk, OwnAll, Addr;
  }

  lemma UsedDisk(s: Fs, t: Fs, c: nat)
    requires s.size == t.size && s.bmapstart == t.bmapstart && s.disk == t.disk
    ensures Used(s, c) == Used(t, c)
  {
  }

  /** The block is still marked when itrunc comes to free it. */
  lemma FreeSlotReady(s0: Fs, s: Fs, own: Owners, i: nat, x: nat, p: nat, q: nat)
    requires Inv(s0, own, {}) && i in s0.inodes && x < SLOTS && Addr(s0, (i, x)) != 0 && !Done(x, p, q)
    requires s.size == s0.size && s.bmapstart == s0.bmapstart && s.datastart == s0.datastart
    requires Freeing(s0, s.disk, own, i, p, q)
    ensures var b := Addr(s0, (i, x)); Geometry(s) && b < s.size && Used(s, b) && b in own && own[b] == (i, x)
  {
    hide Used, Addr, Sized;
    var b := Addr(s0, (i, x));
    assert ValidSlot(s0, (i, x));
    UsedDisk(s, s0.(disk := s.disk), b);
    assert Used(s0, b);
  }

  lemma MarkDisk(s: Fs, t: Fs, b: nat)
    requires s.bmapstart == t.bmapstart && s.disk == t.disk && Bblock(s, b) in s.disk
    ensures Mark(s, b, false).disk == Mark(t, b, false).disk
  {
  }

  lemma FreeingStep(s0: Fs, s: Fs, own: Owners, i: nat, x: nat, p: nat, q: nat, p': nat, q': nat)
    requires Inv(s0, own, {}) && i in s0.inodes && x < SLOTS && Addr(s0, (i, x)) != 0 && OneMore(x, p, q, p', q')
    requires s.size == s0.size && s.bmapstart == s0.bmapstart && s.datastart == s0.datastart
    requires Freeing(s0, s.disk, own, i, p, q) && Geometry(s) && Addr(s0, (i, x)) < s.size
    requires Addr(s0, (i, x)) in own && own[Addr(s0, (i, x))] == (i, x)
    ensures Bblock(s, Addr(s0, (i, x))) in s.disk
    ensures Freeing(s0, Mark(s, Addr(s0, (i, x)), false).disk, own, i, p', q')
  {
    hide Used, Done, Sized, BitsOk, SetBlockBit;
    var b := Addr(s0, (i, x));
    BblockBelow(s, b);
    var s' := Mark(s, b, false);
    forall c: nat | c < s0.size
      ensures Used(s0.(disk := s'.disk), c) <==> Used(s0, c) && !FreedBy(own, i, p', q', c)
    {
      MarkUsed(s, b, false, c);
      UsedDisk(s', s0.(disk := s'.disk), c);
      UsedDisk(s, s0.(disk := s.disk), c);
      OwnedSlot(s0, own, c);
    }
  }

  lemma OwnedSlot(s0: Fs, own: Owners, c: nat)
    requires Inv(s0, own, {})
    ensures c in own ==> own[c].1 < SLOTS && ValidSlot(s0, own[c]) && Addr(s0, own[c]) == c && c != 0
  {
    hide Used, Sized, BitsOk, OwnAll, Addr;
  }

  lemma FreeingSkip(s0: Fs, d: map<nat, Block>, own: Owners, i: nat, x: nat, p: nat, q: nat, p': nat, q': nat)
    requires Inv(s0, own, {}) && x < SLOTS && Addr(s0, (i, x)) == 0 && OneMore(x, p, q, p', q')
    requires Freeing(s0, d, own, i, p, q)
    ensures Freeing(s0, d, own, i, p', q')
  {
    hide Used, Done, Inv, Addr;
    forall c: nat | c < s0.size ensures FreedBy(own, i, p', q', c) == FreedBy(own, i, p, q, c) {
      OwnedSlot(s0, own, c);
    }
  }

  /** Without an indirect block, the direct ones were all. */
  lemma NoneListed(s0: Fs, d: map<nat, Block>, own: Owners, i: nat)
    requires Inv(s0, own, {}) && i in s0.inodes && s0.inodes[i].addrs[NDIRECT] == 0
    requires Freeing(s0, d, own, i, NDIRECT, NDIRECT + 1)
    ensures Freeing(s0, d, own, i, NDIRECT + 1, SLOTS)
  {
    hide Used, Inv;
    var p := NDIRECT + 1;
    forall c: nat | c < s0.size ensures FreedBy(own, i, p, SLOTS, c) == FreedBy(own, i, NDIRECT, p, c) {
      OwnedSlot(s0, own, c);
    }
  }

  ghost function Emptied(s0: Fs, d: map<nat, Block>, i: nat): Fs
    requires i in s0.inodes
  {
    s0.(disk := d, inodes := s0.inodes[i := Inode(seq(13, _ => 0), 0)])
  }

  ghost function Others(own: Owners, i: nat): Owners {
    map b | b in own && own[b].0 != i :: own[b]
  }

  lemma EmptiedAddr(s0: Fs, d: map<nat, Block>, own: Owners, i: nat, k: Slot)
    requires Inv(s0, own, {}) && i in s0.inodes && forall b | b in own :: b in s0.disk && b in d && d[b] == s0.disk[b]
    ensures Addr(Emptied(s0, d, i), k) == if k.0 == i then 0 else Addr(s0, k)
  {
    hide Used, Sized, BitsOk, Word;
    if k.0 != i && ValidSlot(s0, k) && k.1 > NDIRECT {
      IndirectSlot(s0, k.0);
    }
  }

  lemma EmptiedOwn(s0: Fs, s: Fs, own: Owners, i: nat)
    requires Inv(s0, own, {}) && i in s0.inodes && s.inodes.Keys == s0.inodes.Keys
    requires s.size == s0.size && s.datastart == s0.datastart
    requires forall k: Slot :: Addr(s, k) == if k.0 == i then 0 else Addr(s0, k)
    ensures OwnAt(s, Others(own, i)) && OwnAll(s, Others(own, i))
  {
    hide Used, Sized, BitsOk, Addr;
  }

  lemma EmptiedInv(s0: Fs, d: map<nat, Block>, own: Owners, i: nat)
    requires Inv(s0, own, {}) && i in s0.inodes && Freeing(s0, d, own, i, NDIRECT + 1, SLOTS)
    ensures var s := Emptied(s0, d, i);
      && Inv(s, Others(own, i), {}) && Content(s, i) == []
      && (forall j | j in s0.inodes && j != i :: Content(s, j) == Content(s0, j))
      && (forall b: nat | b < s.size :: Used(s, b) <==> Used(s0, b) && !(b in own && own[b].0 == i))
  {
    hide Addr, Used;
    var s := Emptied(s0, d, i);
    FreeingData(s0, d, own, i, NDIRECT + 1, SLOTS);
    forall k: Slot ensures Addr(s, k) == if k.0 == i then 0 else Addr(s0, k) { EmptiedAddr(s0, d, own, i, k); }
    EmptiedOwn(s0, s, own, i);
    EmptiedBits(s0, d, own, i);
    EmptiedSized(s0, s, own, i);
    EmptiedContent(s0, d, own, i);
  }

  lemma EmptiedBits(s0: Fs, d: map<nat, Block>, own: Owners, i: nat)
    requires Inv(s0, own, {}) && i in s0.inodes && Freeing(s0, d, own, i, NDIRECT + 1, SLOTS)
    ensures var s := Emptied(s0, d, i);
      && Geometry(s) && BitsOk(s, Others(own, i), {})
      && (forall b: nat | b < s.size :: Used(s, b) <==> Used(s0, b) && !(b in own && own[b].0 == i))
  {
    hide Addr, Used, Sized, OwnAll;
    var s := Emptied(s0, d, i);
    forall c: nat | c < s0.size ensures Used(s, c) <==> Used(s0, c) && !(c in own && own[c].0 == i) {
      UsedDisk(s, s0.(disk := d), c);
      OwnedSlot(s0, own, c);
    }
  }

  lemma EmptiedSized(s0: Fs, s: Fs, own: Owners, i: nat)
    requires Inv(s0, own, {}) && i in s0.inodes && s.inodes == s0.inodes[i := Inode(seq(13, _ => 0), 0)]
    requires forall k: Slot :: Addr(s, k) == if k.0 == i then 0 else Addr(s0, k)
    ensures Sized(s)
  {
    hide Addr, Used, BitsOk, OwnAll, OwnAt;
    forall j, bn: nat | j in s.inodes && bn * BSIZE < s.inodes[j].size ensures BlockMapped(s, j, bn) {
      assert BlockMapped(s0, j, bn);
    }
  }

  lemma EmptiedContent(s0: Fs, d: map<nat, Block>, own: Owners, i: nat)
    requires Inv(s0, own, {}) && i in s0.inodes && Freeing(s0, d, own, i, NDIRECT + 1, SLOTS)
    requires forall k: Slot :: Addr(Emptied(s0, d, i), k) == if k.0 == i then 0 else Addr(s0, k)
    ensures var s := Emptied(s0, d, i);
      Content(s, i) == [] && forall j | j in s0.inodes && j != i :: Content(s, j) == Content(s0, j)
  {
    hide Addr, Inv, Freeing;
    var s := Emptied(s0, d, i);
    FreeingData(s0, d, own, i, NDIRECT + 1, SLOTS);
    forall j, k: nat | j in s0.inodes && j != i && k < s0.inodes[j].size ensures Byte(s, j, k) == Byte(s0, j, k) {
      SizedMapped(s0, own, j, k);
      AddrInDisk(s0, own, (j, SlotOf(k / BSIZE)));
    }
  }

  // ---------- reading

  /** Below the size bmap only looks. */
  lemma MapsMapped(s: Fs, s': Fs, own: Owners, i: nat, bn: nat, addr: nat)
    requires MapsTo(s, s', i, bn, addr) && BlockMapped(s, i, bn) && Inv(s, own, {})
    ensures s' == s && addr == Addr(s, (i, SlotOf(bn))) && addr in s.disk
  {
    hide Inv, Addr, Keeps, Full, ZeroBlock;
    AddrInDisk(s, own, (i, SlotOf(bn)));
  }

  lemma SliceBytes(s: Fs, own: Owners, i: nat, at: nat, m: nat)
    requires Inv(s, own, {}) && i in s.inodes && at + m <= s.inodes[i].size && at % BSIZE + m <= BSIZE
    requires at < s.inodes[i].size
    ensures BlockMapped(s, i, at / BSIZE) && Addr(s, (i, SlotOf(at / BSIZE))) in s.disk
    ensures s.disk[Addr(s, (i, SlotOf(at / BSIZE)))][at % BSIZE..at % BSIZE + m] == Content(s, i)[at..at + m]
  {
    hide Inv, Addr, Byte, Content;
    SizedMapped(s, own, i, at);
    AddrInDisk(s, own, (i, SlotOf(at / BSIZE)));
    ContentAt(s, i);
    var b := s.disk[Addr(s, (i, SlotOf(at / BSIZE)))];
    var got, want := b[at % BSIZE..at % BSIZE + m], Content(s, i)[at..at + m];
    forall k | 0 <= k < m ensures got[k] == want[k] {
      BlockByte(s, i, at, k);
    }
  }

  lemma ContentAt(s: Fs, i: nat)
    requires i in s.inodes
    ensures |Content(s, i)| == s.inodes[i].size
    ensures forall k | 0 <= k < s.inodes[i].size :: Content(s, i)[k] == Byte(s, i, k)
  {
    hide Byte;
  }

  lemma BlockByte(s: Fs, i: nat, at: nat, k: nat)
    requires at % BSIZE + k < BSIZE && Addr(s, (i, SlotOf(at / BSIZE))) in s.disk
    ensures Byte(s, i, at + k) == s.disk[Addr(s, (i, SlotOf(at / BSIZE)))][at % BSIZE + k]
  {
    hide Addr;
    assert (at + k) / BSIZE == at / BSIZE && (at + k) % BSIZE == at % BSIZE + k;
  }

  ghost predicate Rejected(s: Fs, i: nat, off: nat, n: nat) {
    i in s.inodes && (off > s.inodes[i].size || off + n > MAXFILE * BSIZE)
  }

  /** min(n, what is left of off's block) */
  function Room(off: nat, n: nat): (m: nat)
    ensures m <= n && off % BSIZE + m <= BSIZE && (n > 0 ==> m > 0)
  {
    if n < BSIZE - off % BSIZE then n else BSIZE - off % BSIZE
  }

  lemma ProgressShape(s0: Fs, s: Fs, i: nat, off: nat, src: seq<byte>, tot: nat)
    requires tot <= |src| && Progress(s0, s, i, off, src, tot)
    ensures s.inodes.Keys == s0.inodes.Keys && forall j | j in s0.inodes :: s.inodes[j].size == s0.inodes[j].size
    ensures s.bmapstart == s0.bmapstart
  {
  }

  lemma ProgressStart(s: Fs, i: nat, off: nat, src: seq<byte>)
    ensures Progress(s, s, i, off, src, 0)
  {
  }

  /** An unaligned write starts in a block that is mapped already, as it lies below the size. */
  lemma FirstMapped(s: Fs, own: Owners, i: nat, off: nat)
    requires Inv(s, own, {}) && i in s.inodes && off <= s.inodes[i].size
    ensures off % BSIZE != 0 ==> BlockMapped(s, i, off / BSIZE)
  {
    hide Inv, BlockMapped;
    SizedMapped(s, own, i, off - off % BSIZE);
  }

  /** The blocks written so far are mapped. */
  lemma ProgressBlocks(s0: Fs, s: Fs, i: nat, off: nat, src: seq<byte>, tot: nat, part: nat)
    requires tot + part <= |src| && Progress(s0, s, i, off, src, tot + part)
    ensures forall bn: nat | off / BSIZE <= bn < Upto(off, tot) :: BlockMapped(s, i, bn)
  {
    hide BlockMapped, Byte;
    forall bn: nat | off / BSIZE <= bn < Upto(off, tot) ensures BlockMapped(s, i, bn) {
      var k := if bn * BSIZE < off then off else bn * BSIZE;
      assert off <= k < off + tot && k / BSIZE == bn;
    }
  }

  // ---------- what is logged

  /** At most slot bn and the indirect slot were filled. */
  ghost predicate OtherBlocks(s: Fs, s': Fs, i: nat, bn: nat) {
    forall n: nat | n != bn :: SameBlock(s, s', i, n)
  }

  lemma OtherBlocksSame(s: Fs, t: Fs, u: Fs, i: nat, bn: nat)
    requires OtherBlocks(s, t, i, bn) && forall k: Slot :: Addr(u, k) == Addr(t, k)
    ensures OtherBlocks(s, u, i, bn)
  {
    hide Addr;
    forall n: nat | n != bn ensures SameBlock(s, u, i, n) {
      assert SameBlock(s, t, i, n);
    }
  }

  lemma MappedSame(t: Fs, u: Fs, i: nat, bn: nat)
    requires forall k: Slot :: Addr(u, k) == Addr(t, k)
    ensures BlockMapped(u, i, bn) == BlockMapped(t, i, bn)
  {
    hide Addr;
  }

  lemma LogStart(s: Fs, i: nat, off: nat)
    ensures WriteLog(s, s, i, off, 0) == {} && Extends(s, s, i) && OnlySpan(s, s, i, off / BSIZE, Upto(off, 0))
  {
    hide Addr;
    assert forall x: nat :: !Newly(s, s, i, x);
  }

  lemma SpanGrows(s0: Fs, s: Fs, s': Fs, i: nat, a: nat, b: nat, b': nat, bn: nat)
    requires OnlySpan(s0, s, i, a, b) && OtherBlocks(s, s', i, bn) && a <= bn < b' && b <= b'
    ensures OnlySpan(s0, s', i, a, b')
  {
    hide Addr;
    forall n: nat | n < a || n >= b' ensures SameBlock(s0, s', i, n) {
      assert SameBlock(s0, s, i, n) && SameBlock(s, s', i, n);
    }
  }

  /** A pass that stores m bytes. */
  lemma LogStep(s0: Fs, s: Fs, s': Fs, i: nat, off: nat, src: seq<byte>, tot: nat, m: nat)
    requires tot < |src| && m == Room(off + tot, |src| - tot) && Progress(s0, s, i, off, src, tot)
    requires Extends(s0, s, i) && Extends(s, s', i) && OtherBlocks(s, s', i, (off + tot) / BSIZE)
    requires OnlySpan(s0, s, i, off / BSIZE, Upto(off, tot))
    ensures OnlySpan(s0, s', i, off / BSIZE, Upto(off, tot + m))
    ensures WriteLog(s0, s', i, off, tot + m) ==
      WriteLog(s0, s, i, off, tot) + NewLog(s, s', i) + {Addr(s', (i, SlotOf((off + tot) / BSIZE)))}
  {
    hide Addr, Extends, OnlySpan, OtherBlocks, NewLog, DataIn, Progress, Upto;
    UptoStep(off, tot, m);
    SpanGrows(s0, s, s', i, off / BSIZE, Upto(off, tot), Upto(off, tot + m), (off + tot) / BSIZE);
    NewLogTrans(s0, s, s', i);
    ProgressBlocks(s0, s, i, off, src, tot, 0);
    DataStep(s, s', i, off, tot, m);
  }

  /** The pass at which the write stops. */
  lemma LogStepNone(s0: Fs, s: Fs, s': Fs, i: nat, off: nat, src: seq<byte>, tot: nat)
    requires tot < |src| && Progress(s0, s, i, off, src, tot)
    requires Extends(s0, s, i) && Extends(s, s', i) && OtherBlocks(s, s', i, (off + tot) / BSIZE)
    requires OnlySpan(s0, s, i, off / BSIZE, Upto(off, tot))
    ensures OnlySpan(s0, s', i, off / BSIZE, Last(off, tot, |src|))
    ensures WriteLog(s0, s', i, off, tot) == WriteLog(s0, s, i, off, tot) + NewLog(s, s', i)
  {
    hide Extends, NewLog, Progress, Addr, DataIn, OnlySpan, OtherBlocks, Upto;
    NewLogTrans(s0, s, s', i);
    ProgressBlocks(s0, s, i, off, src, tot, 0);
    UptoStep(off, tot, 1);
    SpanGrows(s0, s, s', i, off / BSIZE, Upto(off, tot), Upto(off, tot + 1), (off + tot) / BSIZE);
    DataKept(s, s', i, off / BSIZE, Upto(off, tot));
  }

  lemma DataKept(s: Fs, s': Fs, i: nat, a: nat, b: nat)
    requires Extends(s, s', i) && forall bn: nat | a <= bn < b :: BlockMapped(s, i, bn)
    ensures DataIn(s', i, a, b) == DataIn(s, i, a, b)
  {
    forall bn: nat | a <= bn < b ensures Addr(s', (i, SlotOf(bn))) == Addr(s, (i, SlotOf(bn))) {
      assert BlockMapped(s, i, bn) && ExtendsAt(s, s', i, (i, SlotOf(bn)));
    }
    hide Addr, SlotOf, Extends, BlockMapped;
  }

  /** Bringing the size up to date moves no block. */
  lemma ResizeLog(s0: Fs, s: Fs, i: nat, size: nat, off: nat, tot: nat, b: nat)
    requires i in s.inodes
    ensures var s' := Resize(s, i, size);
      && WriteLog(s0, s', i, off, tot) == WriteLog(s0, s, i, off, tot)
      && (Extends(s0, s, i) ==> Extends(s0, s', i))
      && (OnlySpan(s0, s, i, off / BSIZE, b) ==> OnlySpan(s0, s', i, off / BSIZE, b))
      && forall bn: nat :: BlockMapped(s', i, bn) == BlockMapped(s, i, bn)
  {
    hide Addr, NewLog, DataIn, Extends, Upto;
    var s' := Resize(s, i, size);
    forall k: Slot ensures Addr(s', k) == Addr(s, k) { ResizeAddr(s, i, size, k); }
    NewLogSame(s0, s, s', i);
    if OnlySpan(s0, s, i, off / BSIZE, b) {
      forall n: nat | n < off / BSIZE || n >= b ensures SameBlock(s0, s', i, n) {
        assert SameBlock(s0, s, i, n);
      }
    }
  }

  lemma SizeBound(s: Fs, own: Owners, i: nat)
    requires Inv(s, own, {}) && i in s.inodes
    ensures s.inodes[i].size <= MAXFILE * BSIZE
  {
    hide OwnAt, OwnAll, BitsOk, Geometry;
  }

  lemma ResizeShape(s: Fs, i: nat, size: nat)
    requires i in s.inodes
    ensures Resize(s, i, size).inodes.Keys == s.inodes.Keys
    ensures size == s.inodes[i].size ==> Resize(s, i, size) == s
  {
  }

  lemma FullResize(s: Fs, i: nat, size: nat)
    requires i in s.inodes
    ensures Full(s) ==> Full(Resize(s, i, size))
  {
    hide Used;
    forall b: nat ensures Used(Resize(s, i, size), b) == Used(s, b) { ResizeUsed(s, i, size, b); }
  }

  lemma InvSized(s: Fs, own: Owners)
    requires Inv(s, own, {})
    ensures Sized(s)
  {
  }

  /** What bmap's answer means for the store that follows. */
  lemma MapsFacts(s: Fs, s1: Fs, own: Owners, i: nat, bn: nat, addr: nat)
    requires Inv(s1, own, {}) && MapsTo(s, s1, i, bn, addr)
    ensures Keeps(s, s1) && s1.inodes.Keys == s.inodes.Keys && (addr == 0 ==> Full(s1))
    ensures OtherBlocks(s, s1, i, bn) && (BlockMapped(s1, i, bn) <==> addr != 0)
    ensures addr != 0 ==> addr == Addr(s1, (i, SlotOf(bn)))
    ensures addr != 0 ==> addr in s1.disk && addr in own && own[addr] == (i, SlotOf(bn))
  {
    hide Inv, Addr, Full, ZeroBlock;
    if addr != 0 {
      AddrInDisk(s1, own, (i, SlotOf(bn)));
    }
    forall n: nat | n != bn ensures SameBlock(s, s1, i, n) {
      assert (i, SlotOf(n)) != (i, SlotOf(bn)) && (i, SlotOf(n)) != (i, NDIRECT);
    }
  }

  /** What filling a slot logs, in terms of the two states. */
  lemma FilledLog(s: Fs, s': Fs, i: nat, x: nat, addr: nat)
    requires Filled(s, s', (i, x), addr) && x < SLOTS
    ensures Extends(s, s', i) && SlotLog(s, s', i, x) == NewLog(s, s', i)
    ensures Addr(s, (i, x)) != 0 ==> SlotLog(s, s', i, x) == {}
  {
    hide Addr, ZeroBlock, Full, NewLog;
    KeepsPlace(s, s');
    OnlySlotExtends(s, s', i, x);
    OnlySlotLog(s, s', i, x);
  }

  /** What bmap does: no file changes, a mapped block is found without any change, a new block is zeroed, and
      there is none only when the disk is full. */
  ghost predicate MapsTo(s: Fs, s': Fs, i: nat, bn: nat, addr: nat) {
    && Keeps(s, s') && addr == Addr(s', (i, SlotOf(bn)))
    && (BlockMapped(s, i, bn) ==> s' == s)
    && (addr == 0 ==> Full(s'))
    && (!BlockMapped(s, i, bn) && addr != 0 ==> addr in s'.disk && s'.disk[addr] == ZeroBlock())
    && (forall k: Slot | k != (i, SlotOf(bn)) && k != (i, NDIRECT) :: Addr(s', k) == Addr(s, k))
    && (Addr(s, (i, NDIRECT)) != 0 ==> Addr(s', (i, NDIRECT)) == Addr(s, (i, NDIRECT)))
  }

  lemma MapsDirect(s: Fs, s': Fs, i: nat, bn: nat, addr: nat)
    requires bn < NDIRECT && Filled(s, s', (i, bn), addr)
    ensures MapsTo(s, s', i, bn, addr)
  {
    hide Addr, Keeps, ZeroBlock, Full;
  }

  lemma FilledIndirect(s: Fs, s1: Fs, i: nat, d: nat)
    requires Filled(s, s1, (i, NDIRECT), d)
    ensures d == Addr(s1, (i, NDIRECT))
    ensures s1.inodes.Keys == s.inodes.Keys && (i in s1.inodes ==> s1.inodes[i].addrs[NDIRECT] == d)
    ensures Addr(s, (i, NDIRECT)) != 0 ==> s1 == s
  {
    hide ZeroBlock, Full;
  }

  lemma MapsNone(s: Fs, s1: Fs, i: nat, bn: nat)
    requires NDIRECT <= bn < MAXFILE && Filled(s, s1, (i, NDIRECT), 0) && i in s.inodes
    ensures MapsTo(s, s1, i, bn, 0)
  {
    hide Keeps, ZeroBlock, Full, Word;
  }

  lemma MapsIndirect(s: Fs, s1: Fs, s': Fs, i: nat, bn: nat, addr: nat)
    requires NDIRECT <= bn < MAXFILE && i in s.inodes && Filled(s, s1, (i, NDIRECT), Addr(s1, (i, NDIRECT)))
    requires Addr(s1, (i, NDIRECT)) != 0 && Filled(s1, s', (i, bn + 1), addr) && s1.inodes == s'.inodes
    ensures MapsTo(s, s', i, bn, addr) && Addr(s1, (i, bn + 1)) == Addr(s, (i, SlotOf(bn)))
  {
    hide Keeps, ZeroBlock, Full, Word;
    KeepsTrans(s, s1, s');
    KeepsPlace(s1, s');
    if Addr(s, (i, NDIRECT)) == 0 {
      NoneBehind(s, i, bn);
    }
  }

  /** A block listed in the indirect block has one. */
  lemma Behind(s: Fs, i: nat, bn: nat)
    requires bn < MAXFILE && i in s.inodes
    ensures bn >= NDIRECT && BlockMapped(s, i, bn) ==> Addr(s, (i, NDIRECT)) != 0
  {
    hide Word;
  }

  lemma KeepsPlace(s: Fs, s': Fs)
    requires Keeps(s, s')
    ensures s'.bmapstart == s.bmapstart && s'.size == s.size && s'.inodes.Keys == s.inodes.Keys
  {
  }

  /** Block 0, the boot block, is never free. */
  lemma BootBlockUsed(s: Fs, own: Owners)
    requires Inv(s, own, {})
    ensures Geometry(s) && (s.size > 0 ==> Used(s, 0))
  {
    hide Used, OwnAt, OwnAll, Sized;
  }

  /** Without an indirect block nothing is listed. */
  lemma NoneBehind(s: Fs, i: nat, bn: nat)
    requires NDIRECT <= bn < MAXFILE && i in s.inodes && Addr(s, (i, NDIRECT)) == 0
    ensures Addr(s, (i, SlotOf(bn))) == 0
  {
  }

  /** What making sure that a slot holds a block does: no file and no other slot changes, a slot that held a block
      is left alone, a new block is zeroed, and there is none only when the disk is full. */
  ghost predicate Filled(s: Fs, s': Fs, slot: Slot, addr: nat) {
    && Keeps(s, s') && addr == Addr(s', slot)
    && (forall k: Slot | k != slot :: Addr(s', k) == Addr(s, k))
    && (Addr(s, slot) != 0 ==> s' == s)
    && (addr == 0 ==> s' == s && Full(s))
    && (Addr(s, slot) == 0 && addr != 0 ==> addr in s'.disk && s'.disk[addr] == ZeroBlock())
  }

  lemma DirectAddr(s: Fs, i: nat, x: nat)
    requires i in s.inodes && x <= NDIRECT
    ensures ValidSlot(s, (i, x)) && Addr(s, (i, x)) == s.inodes[i].addrs[x]
  {
  }

  lemma IndirectAddr(s: Fs, own: Owners, i: nat, j: nat)
    requires Inv(s, own, {}) && i in s.inodes && j < WORDS && s.inodes[i].addrs[NDIRECT] != 0
    ensures s.inodes[i].addrs[NDIRECT] in s.disk && s.inodes[i].addrs[NDIRECT] in own
    ensures ValidSlot(s, (i, NDIRECT + 1 + j))
    ensures Addr(s, (i, NDIRECT + 1 + j)) == Word(s.disk[s.inodes[i].addrs[NDIRECT]], j)
  {
    hide BitsOk, Sized, Word;
    IndirectSlot(s, i);
  }

  /** The indirect block is not the one balloc just took. */
  lemma IndirectKept(s: Fs, s1: Fs, own: Owners, i: nat, j: nat)
    requires Inv(s, own, {}) && Agree(s, s1, own) && i in s.inodes && j < WORDS && s.inodes[i].addrs[NDIRECT] != 0
    ensures s1.inodes == s.inodes && s.inodes[i].addrs[NDIRECT] in s.disk && s.inodes[i].addrs[NDIRECT] in s1.disk
    ensures s1.disk[s.inodes[i].addrs[NDIRECT]] == s.disk[s.inodes[i].addrs[NDIRECT]]
    ensures Addr(s1, (i, NDIRECT + 1 + j)) == Addr(s, (i, NDIRECT + 1 + j))
  {
    hide BitsOk, Sized, Word;
    IndirectSlot(s, i);
    AgreeAddr(s, s1, own, (i, NDIRECT + 1 + j));
  }

  lemma FitsUint(s: Fs, b: nat)
    requires Geometry(s) && b < s.size
    ensures b < UINT_LIMIT
  {
  }

  lemma FilledSame(s: Fs, own: Owners, slot: Slot)
    requires Inv(s, own, {}) && (Addr(s, slot) != 0 || Full(s))
    ensures Filled(s, s, slot, Addr(s, slot))
  {
    hide Inv, Addr, Full, ZeroBlock, Keeps;
    KeepsSelf(s, own);
  }

  lemma FilledSteps(s: Fs, s1: Fs, s': Fs, own: Owners, slot: Slot, addr: nat)
    requires OwnAll(s, own) && Agree(s, s1, own) && Attached(s1, s', slot, addr) && Keeps(s1, s') && addr != 0
    requires addr in s1.disk && s1.disk[addr] == ZeroBlock() && addr in s'.disk && s'.disk[addr] == s1.disk[addr]
    ensures Filled(s, s', slot, addr) && Addr(s, slot) == 0
  {
    hide Addr, OwnAll, Agree, Keeps, ZeroBlock;
    AgreeAll(s, s1, own);
    AgreeKept(s, s1, own);
    KeepsTrans(s, s1, s');
  }

  lemma KeepsSelf(s: Fs, own: Owners)
    requires Inv(s, own, {})
    ensures Keeps(s, s)
  {
    hide Addr, BitsOk, Sized;
    forall k: Slot | Addr(s, k) != 0 && k.1 != NDIRECT ensures Kept(s, s, k) {
      AddrValid(s, k);
    }
  }

  ghost predicate Full(s: Fs) {
    forall b: nat | b < s.size :: Used(s, b)
  }
}
