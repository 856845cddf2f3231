/** The bytes of files across the steps of a write. */
module FileBytes {
  import opened Blocks
  import opened Files

  lemma KeepByte(s: Fs, s': Fs, i: nat, k: nat)
    requires Keeps(s, s') && BlockMapped(s, i, k / BSIZE)
    ensures BlockMapped(s', i, k / BSIZE) && Byte(s', i, k) == Byte(s, i, k)
  {
    hide Addr;
    assert Kept(s, s', (i, SlotOf(k / BSIZE)));
  }

  /** A store to the block behind block bn of file i is seen in that block only. */
  lemma WriteByte(s: Fs, own: Owners, i: nat, bn: nat, blk: Block, j: nat, k: nat)
    requires Inv(s, own, {}) && BlockMapped(s, i, bn) && BlockMapped(s, j, k / BSIZE)
    ensures var s' := WriteData(s, Addr(s, (i, SlotOf(bn))), blk);
      && BlockMapped(s', j, k / BSIZE)
      && Byte(s', j, k) == if j == i && k / BSIZE == bn then blk[k % BSIZE] else Byte(s, j, k)
  {
    hide Addr, Sized, BitsOk;
    var a := Addr(s, (i, SlotOf(bn)));
    var slot: Slot := (i, SlotOf(bn));
    AddrValid(s, slot);
    WriteDataInv(s, own, {}, a, blk);
    AddrValid(s, (j, SlotOf(k / BSIZE)));
    assert own[a] == slot;
  }

  // ---------- a write in progress

  /** tot bytes of src have gone into file i at off; nothing else has changed. */
  ghost predicate Progress(s0: Fs, s: Fs, i: nat, off: nat, src: seq<byte>, tot: nat)
    requires tot <= |src|
  {
    && s.size == s0.size && s.bmapstart == s0.bmapstart && s.datastart == s0.datastart
    && s.inodes.Keys == s0.inodes.Keys && (forall j | j in s0.inodes :: s.inodes[j].size == s0.inodes[j].size)
    && (forall j, k: nat | j in s0.inodes && k < s0.inodes[j].size && !(j == i && off <= k < off + tot) ::
          Byte(s, j, k) == Byte(s0, j, k))
    && (forall k: nat | off <= k < off + tot :: Byte(s, i, k) == src[k - off] && BlockMapped(s, i, k / BSIZE))
  }

  /** bmap disturbs no write in progress. */
  lemma ProgressKeeps(s0: Fs, s: Fs, s': Fs, i: nat, off: nat, src: seq<byte>, tot: nat)
    requires tot <= |src| && Progress(s0, s, i, off, src, tot) && Sized(s) && Keeps(s, s')
    ensures Progress(s0, s', i, off, src, tot)
  {
    hide Byte, BlockMapped;
    forall j, k: nat | j in s0.inodes && k < s0.inodes[j].size && !(j == i && off <= k < off + tot)
      ensures Byte(s', j, k) == Byte(s0, j, k)
    {
      assert BlockMapped(s, j, k / BSIZE);
      KeepByte(s, s', j, k);
    }
    forall k: nat | off <= k < off + tot ensures Byte(s', i, k) == src[k - off] && BlockMapped(s', i, k / BSIZE) {
      KeepByte(s, s', i, k);
    }
  }

  /** The block with m bytes of src from tot on stored at o. */
  function Patched(b: Block, o: nat, src: seq<byte>, tot: nat, m: nat): Block
    requires o + m <= BSIZE && tot + m <= |src|
  {
    b[..o] + src[tot..tot + m] + b[o + m..]
  }

  lemma ProgressWrite(s0: Fs, s: Fs, own: Owners, i: nat, off: nat, src: seq<byte>, tot: nat, m: nat)
    requires Inv(s, own, {}) && i in s.inodes && tot + m <= |src| && Progress(s0, s, i, off, src, tot)
    requires BlockMapped(s, i, (off + tot) / BSIZE) && (off + tot) % BSIZE + m <= BSIZE
    ensures var a := Addr(s, (i, SlotOf((off + tot) / BSIZE)));
      && a in s.disk
      && var data := Patched(s.disk[a], (off + tot) % BSIZE, src, tot, m);
        Progress(s0, WriteData(s, a, data), i, off, src, tot + m)
  {
    var bn, o := (off + tot) / BSIZE, (off + tot) % BSIZE;
    var a := Addr(s, (i, SlotOf(bn)));
    AddrInDisk(s, own, (i, SlotOf(bn)));
    var blk := Patched(s.disk[a], o, src, tot, m);
    var s' := WriteData(s, a, blk);
    hide Addr, Inv, Patched, WriteData;
    forall j, k: nat | j in s0.inodes && k < s0.inodes[j].size && !(j == i && off <= k < off + tot + m)
      ensures Byte(s', j, k) == Byte(s0, j, k)
    {
      SizedMapped(s, own, j, k);
      WriteByte(s, own, i, bn, blk, j, k);
      PatchedByte(s.disk[a], off, src, tot, m, k);
    }
    forall k: nat | off <= k < off + tot + m ensures Byte(s', i, k) == src[k - off] && BlockMapped(s', i, k / BSIZE) {
      PatchedByte(s.disk[a], off, src, tot, m, k);
      WriteByte(s, own, i, bn, blk, i, k);
    }
    SameShape(s, a, blk);
  }

  lemma SameShape(s: Fs, a: nat, blk: Block)
    ensures var s' := WriteData(s, a, blk);
      s'.size == s.size && s'.bmapstart == s.bmapstart && s'.datastart == s.datastart && s'.inodes == s.inodes
  {
  }

  lemma AddrInDisk(s: Fs, own: Owners, k: Slot)
    requires Inv(s, own, {}) && Addr(s, k) != 0
    ensures Addr(s, k) in s.disk && Addr(s, k) in own && own[Addr(s, k)] == k
  {
    hide Sized, BitsOk;
    AddrValid(s, k);
    hide Addr;
  }

  lemma SizedMapped(s: Fs, own: Owners, i: nat, k: nat)
    requires Inv(s, own, {}) && i in s.inodes
    ensures k < s.inodes[i].size ==> BlockMapped(s, i, k / BSIZE)
  {
    hide OwnAt, OwnAll, BitsOk, BlockMapped;
  }

  lemma PatchedByte(b: Block, off: nat, src: seq<byte>, tot: nat, m: nat, k: nat)
    requires (off + tot) % BSIZE + m <= BSIZE && tot + m <= |src|
    ensures off + tot <= k < off + tot + m ==> k / BSIZE == (off + tot) / BSIZE
    ensures off + tot <= k < off + tot + m ==> Patched(b, (off + tot) % BSIZE, src, tot, m)[k % BSIZE] == src[k - off]
    ensures k / BSIZE == (off + tot) / BSIZE && !(off + tot <= k < off + tot + m) ==>
      Patched(b, (off + tot) % BSIZE, src, tot, m)[k % BSIZE] == b[k % BSIZE]
  {
  }

  // ---------- the end of a write

  function Max(a: nat, b: nat): nat { if a < b then b else a }

  function Resize(s: Fs, i: nat, size: nat): Fs
    requires i in s.inodes
  {
    s.(inodes := s.inodes[i := s.inodes[i].(size := size)])
  }

  lemma ResizeAddr(s: Fs, i: nat, size: nat, k: Slot)
    requires i in s.inodes
    ensures Addr(Resize(s, i, size), k) == Addr(s, k)
  {
    hide Word;
  }

  lemma ResizeSame(s: Fs, i: nat, size: nat, j: nat, k: nat)
    requires i in s.inodes
    ensures Byte(Resize(s, i, size), j, k) == Byte(s, j, k)
    ensures BlockMapped(Resize(s, i, size), j, k / BSIZE) == BlockMapped(s, j, k / BSIZE)
  {
    hide Addr;
    ResizeAddr(s, i, size, (j, SlotOf(k / BSIZE)));
  }

  lemma ResizeUsed(s: Fs, i: nat, size: nat, b: nat)
    requires i in s.inodes
    ensures Used(Resize(s, i, size), b) == Used(s, b)
  {
  }

  /** Growing a file over mapped blocks keeps everything. */
  lemma ResizeInv(s: Fs, own: Owners, i: nat, size: nat)
    requires Inv(s, own, {}) && i in s.inodes && size <= MAXFILE * BSIZE
    requires forall bn: nat | bn * BSIZE < size :: BlockMapped(s, i, bn)
    ensures Inv(Resize(s, i, size), own, {})
  {
    hide Addr, Used;
    var s' := Resize(s, i, size);
    forall k: Slot ensures Addr(s', k) == Addr(s, k) { ResizeAddr(s, i, size, k); }
    forall b: nat ensures Used(s', b) == Used(s, b) { ResizeUsed(s, i, size, b); }
    forall j, bn: nat | j in s'.inodes && bn * BSIZE < s'.inodes[j].size ensures BlockMapped(s', j, bn) {
      assert BlockMapped(s, j, bn);
    }
  }

  /** c with bytes stored at off, longer if they reach past its end. */
  function Spliced(c: seq<byte>, off: nat, bytes: seq<byte>): seq<byte>
    requires off <= |c|
  {
    c[..off] + bytes + if off + |bytes| < |c| then c[off + |bytes|..] else []
  }

  lemma ProgressMapped(s0: Fs, s: Fs, own: Owners, i: nat, off: nat, src: seq<byte>, tot: nat, bn: nat)
    requires Inv(s, own, {}) && i in s.inodes && i in s0.inodes && off <= s0.inodes[i].size && tot <= |src|
    requires Progress(s0, s, i, off, src, tot) && bn * BSIZE < Max(s0.inodes[i].size, off + tot)
    ensures BlockMapped(s, i, bn)
  {
    hide BlockMapped, Byte, Inv;
    if bn * BSIZE < s0.inodes[i].size {
      SizedMapped(s, own, i, bn * BSIZE);
    } else {
      assert BlockMapped(s, i, (bn * BSIZE) / BSIZE);
    }
  }

  /** c with tot bytes of src stored at off, and part more where c was that long already. */
  function Stored(c: seq<byte>, off: nat, src: seq<byte>, tot: nat, part: nat): seq<byte>
    requires off <= |c| && tot + part <= |src|
  {
    Spliced(c, off, src[..tot + part])[..Max(|c|, off + tot)]
  }

  /** When the size is brought up to date, the file is its old content with the bytes stored in it, and every other
      file is as it was. */
  lemma WriteDone(s0: Fs, s: Fs, own: Owners, i: nat, off: nat, src: seq<byte>, tot: nat, part: nat)
    requires Inv(s, own, {}) && i in s.inodes && i in s0.inodes && off <= s0.inodes[i].size && tot + part <= |src|
    requires Progress(s0, s, i, off, src, tot + part)
    requires off + tot <= MAXFILE * BSIZE && s0.inodes[i].size <= MAXFILE * BSIZE
    ensures var s' := Resize(s, i, Max(s0.inodes[i].size, off + tot));
      && Inv(s', own, {})
      && Content(s', i) == Stored(Content(s0, i), off, src, tot, part)
      && forall j | j in s0.inodes && j != i :: j in s'.inodes && Content(s', j) == Content(s0, j)
  {
    hide Inv, Byte, BlockMapped, Stored;
    var size := Max(s0.inodes[i].size, off + tot);
    forall bn: nat | bn * BSIZE < size ensures BlockMapped(s, i, bn) {
      ProgressMapped(s0, s, own, i, off, src, tot + part, bn);
    }
    ResizeInv(s, own, i, size);
    forall j, k: nat ensures Byte(Resize(s, i, size), j, k) == Byte(s, j, k) { ResizeSame(s, i, size, j, k); }
    WriteDoneContent(s0, s, i, off, src, tot, part);
    forall j | j in s0.inodes && j != i
      ensures j in Resize(s, i, size).inodes && Content(Resize(s, i, size), j) == Content(s0, j)
    {
    }
  }

  lemma WriteDoneContent(s0: Fs, s: Fs, i: nat, off: nat, src: seq<byte>, tot: nat, part: nat)
    requires i in s.inodes && i in s0.inodes && off <= s0.inodes[i].size && tot + part <= |src|
    requires Progress(s0, s, i, off, src, tot + part)
    ensures var s' := Resize(s, i, Max(s0.inodes[i].size, off + tot));
      Content(s', i) == Stored(Content(s0, i), off, src, tot, part)
  {
    hide Byte, BlockMapped;
    var size := Max(s0.inodes[i].size, off + tot);
    var s' := Resize(s, i, size);
    var c, d := Content(s', i), Stored(Content(s0, i), off, src, tot, part);
    assert |c| == |d| == size;
    forall k: nat | k < size ensures c[k] == d[k] {
      ResizeSame(s, i, size, i, k);
    }
  }
}
