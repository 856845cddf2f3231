/** The bound of ten blocks is tight: an image whose four free blocks lie in four bitmap blocks, and a write of
    MAX_CHUNK bytes there that logs ten. */
module FullLog {
  import opened Blocks
  import opened Bitmap
  import opened Files
  import opened FileBytes
  import opened FileLog
  import opened FileSystem

  // ---------- the image

  /** The data blocks in use: 12 to an inode, from inode 1 on. */
  const OWNED: nat := 8193
  const OWNED_END: nat := 24575
  const INODES: nat := 1366
  const INODESTART: nat := 32
  const OFFSET: nat := 11265             // 11*BSIZE + 1, the size of file 1

  function FreeBlocks(): set<nat> { {8191, 8192, 24575, 24576} }

  function Owner(b: nat): Slot
    requires OWNED <= b
  {
    ((b - OWNED) / NDIRECT + 1, (b - OWNED) % NDIRECT)
  }

  ghost function OwnersOf(): Owners {
    map b: nat | OWNED <= b < OWNED_END :: Owner(b)
  }

  /** The block in slot x of inode i + 1. */
  function Held(i: nat, x: nat): uint {
    var b := OWNED + NDIRECT * i + x;
    if x < NDIRECT && b < OWNED_END then b else 0
  }

  function InodeAt(i: nat): Inode
    requires i > 0
  {
    Inode(seq(NDIRECT + 1, x requires 0 <= x => Held(i - 1, x)), if i == 1 then OFFSET else 0)
  }

  /** Bitmap block g: one bit is clear, the last in blocks 0 and 2 and the first in blocks 1 and 3. */
  function MapBlock(g: nat): Block {
    var ones: Block := seq(BSIZE, _ => 255);
    SetBlockBit(ones, if g % 2 == 0 then BPB - 1 else 0, false)
  }

  function BlockAt(b: nat): Block {
    if 8187 <= b < 8191 then MapBlock(b - 8187) else ZeroBlock()
  }

  function Image(): Fs {
    Fs(24577, 8187, 8191, map b: nat | b < 24577 :: BlockAt(b), map i: nat | 1 <= i <= INODES :: InodeAt(i))
  }

  lemma ImageAddr(i: nat, x: nat)
    ensures Addr(Image(), (i, x)) == if 1 <= i <= INODES then Held(i - 1, x) else 0
  {
    hide MapBlock, ZeroBlock, Word;
  }

  lemma ImageUsed(b: nat)
    requires b < 24577
    ensures Used(Image(), b) <==> b !in FreeBlocks()
  {
    hide ZeroBlock, InodeAt, SetBlockBit, BlockBit;
    var s := Image();
    var g := b / BPB;
    assert Bblock(s, b) == 8187 + g && g < 4;
    assert s.disk[Bblock(s, b)] == MapBlock(g);
    MapBit(g, b % BPB);
  }

  lemma MapBit(g: nat, j: nat)
    requires j < BPB
    ensures BlockBit(MapBlock(g), j) <==> j != if g % 2 == 0 then BPB - 1 else 0
  {
    var ones: Block := seq(BSIZE, _ => 255);
    SetBlockBitBits(ones, if g % 2 == 0 then BPB - 1 else 0, false, j);
    OnesBit(j % 8);
  }

  lemma OnesBit(k: nat)
    requires k < 8
    ensures BitOf(255, k)
  {
    assert BitOf(255, 0) && BitOf(255, 1) && BitOf(255, 2) && BitOf(255, 3);
    assert BitOf(15, 0) && BitOf(15, 1) && BitOf(15, 2) && BitOf(15, 3);
    assert BitOf(31, 1 + 3);
  }

  lemma ImageOwners()
    ensures OwnAt(Image(), OwnersOf()) && OwnAll(Image(), OwnersOf())
  {
    hide Addr, MapBlock, ZeroBlock;
    var s, own := Image(), OwnersOf();
    forall b | b in own ensures s.datastart <= b < s.size && ValidSlot(s, own[b]) && Addr(s, own[b]) == b {
      ImageAddr(own[b].0, own[b].1);
    }
    forall k | ValidSlot(s, k) && Addr(s, k) != 0 ensures Addr(s, k) in own && own[Addr(s, k)] == k {
      ImageAddr(k.0, k.1);
    }
  }

  lemma ImageSized()
    ensures Sized(Image())
  {
    hide Addr, MapBlock, ZeroBlock;
    var s := Image();
    forall i | i in s.inodes
      ensures s.inodes[i].size <= MAXFILE * BSIZE
      ensures forall bn: nat | bn * BSIZE < s.inodes[i].size :: BlockMapped(s, i, bn)
    {
      forall bn: nat | bn * BSIZE < s.inodes[i].size ensures BlockMapped(s, i, bn) {
        ImageAddr(i, SlotOf(bn));
      }
    }
  }

  lemma ImageInv()
    ensures Inv(Image(), OwnersOf(), {})
  {
    hide Addr, MapBlock, ZeroBlock, InodeAt, Used, OwnAt, OwnAll, Sized;
    ImageOwners();
    ImageSized();
    forall b: nat | b < 24577 ensures Used(Image(), b) <==> b < 8191 || b in OwnersOf() { ImageUsed(b); }
  }

  lemma ImageGeometry()
    ensures Image().size == 24577 && Image().datastart == 8191 && Image().bmapstart == 8187 && 1 in Image().inodes
    ensures Image().inodes[1].size == OFFSET
  {
    hide BlockAt;
  }

  // ---------- the write

  /** What writei leaves behind when it is given the image: slots of file 1 filled, within the span of the write. */
  ghost predicate Written(s: Fs, own: Owners, b: nat) {
    && Inv(s, own, {}) && s.size == 24577 && s.datastart == 8191 && s.bmapstart == 8187
    && Extends(Image(), s, 1) && b <= 15 && OnlySpan(Image(), s, 1, 11, b)
  }

  lemma Outside(s: Fs, s': Fs, i: nat, a: nat, b: nat, bn: nat)
    requires OnlySpan(s, s', i, a, b)
    ensures bn < a || bn >= b ==> SameBlock(s, s', i, bn)
  {
    hide Addr;
  }

  /** A slot that was filled is one of four. */
  lemma FilledSlot(s: Fs, own: Owners, b: nat, k: Slot)
    requires Written(s, own, b) && Addr(s, k) != Addr(Image(), k)
    ensures k.0 == 1 && NDIRECT <= k.1 <= 15 && Addr(Image(), k) == 0
  {
    hide Addr, Inv, Image, OnlySpan;
    assert ExtendsAt(Image(), s, 1, k);
    ImageAddr(k.0, k.1);
    if k.1 != NDIRECT {
      SlotOfBlockOf(k.1);
      Outside(Image(), s, 1, 11, b, BlockOf(k.1));
    }
  }

  /** A block that was free and is used now is in one of the four slots. */
  lemma TakenSlot(s: Fs, own: Owners, b: nat, c: nat)
    requires Written(s, own, b) && c in FreeBlocks() && Used(s, c)
    ensures exists x: nat :: NDIRECT <= x <= 15 && Addr(s, (1, x)) == c
  {
    hide Addr, Extends, OnlySpan, Sized, Image, Used;
    var k := own[c];
    ImageAddr(k.0, k.1);
    FilledSlot(s, own, b, k);
    assert k == (1, k.1);
  }

  /** A block in a slot that was empty was free. */
  lemma TakenBlock(s: Fs, own: Owners, b: nat, k: Slot)
    requires Written(s, own, b) && Addr(Image(), k) == 0 && Addr(s, k) != 0
    ensures Addr(s, k) in FreeBlocks()
  {
    hide Addr, OnlySpan, Sized, Image, Used, BitsOk;
    var c := Addr(s, k);
    ImageInv();
    AddrValid(s, k);
    assert own[c] == k && 8191 <= c < 24577;
    if c in OwnersOf() {
      var j := OwnersOf()[c];
      assert Addr(Image(), j) == c;
      assert ExtendsAt(Image(), s, 1, j);
      AddrValid(s, j);
    }
  }

  lemma AddrValid(s: Fs, k: Slot)
    requires Addr(s, k) != 0
    ensures ValidSlot(s, k)
  {
  }

  /** The write is not cut short: with one of its blocks missing, one of the free blocks would be left. */
  lemma NotFull(s: Fs, own: Owners, b: nat, bn: nat)
    requires Written(s, own, b) && 11 <= bn < 15 && !BlockMapped(s, 1, bn)
    ensures !Full(s)
  {
    hide Addr, Inv, Image, Extends, OnlySpan, Used;
    FirstStays(s, own, b);
    if Full(s) {
      TakenSlot(s, own, b, 8191);
      TakenSlot(s, own, b, 8192);
      TakenSlot(s, own, b, 24575);
      TakenSlot(s, own, b, 24576);
      assert false;
    }
  }

  lemma FirstStays(s: Fs, own: Owners, b: nat)
    requires Written(s, own, b)
    ensures Addr(s, (1, 11)) == 8204
  {
    hide Addr, Inv, Image, OnlySpan;
    assert ExtendsAt(Image(), s, 1, (1, 11));
    ImageAddr(1, 11);
  }

  /** The free blocks are in slots 12 to 15 now. */
  lemma AllTaken(s: Fs, own: Owners)
    requires Written(s, own, 15) && forall bn: nat | 11 <= bn < 15 :: BlockMapped(s, 1, bn)
    ensures forall x: nat :: Newly(Image(), s, 1, x) <==> NDIRECT <= x <= 15
    ensures {Addr(s, (1, 12)), Addr(s, (1, 13)), Addr(s, (1, 14)), Addr(s, (1, 15))} == FreeBlocks()
  {
    hide Addr, Inv, Image, Extends, OnlySpan;
    assert BlockMapped(s, 1, 12) && BlockMapped(s, 1, 13) && BlockMapped(s, 1, 14);
    Unlisted(s, 1, 13);
    forall x: nat ensures Newly(Image(), s, 1, x) <==> NDIRECT <= x <= 15 {
      ImageAddr(1, x);
      if Newly(Image(), s, 1, x) {
        FilledSlot(s, own, 15, (1, x));
      }
    }
    Taken(s, own, 12);
    Taken(s, own, 13);
    Taken(s, own, 14);
    Taken(s, own, 15);
  }

  lemma Taken(s: Fs, own: Owners, x: nat)
    requires Written(s, own, 15) && Newly(Image(), s, 1, x)
    ensures Addr(s, (1, x)) in FreeBlocks() && forall y: nat | y != x :: Addr(s, (1, y)) != Addr(s, (1, x))
  {
    hide Addr, Image, Extends, OnlySpan, BitsOk, Sized, OwnAt;
    TakenBlock(s, own, 15, (1, x));
    AddrValid(s, (1, x));
    forall y: nat | y != x ensures Addr(s, (1, y)) != Addr(s, (1, x)) {
      if Addr(s, (1, y)) == Addr(s, (1, x)) {
        AddrValid(s, (1, y));
      }
    }
  }

  /** What the four slots hold, as a fact about sets of blocks. */
  ghost predicate Holds(s: Fs) {
    && (forall x: nat :: Newly(Image(), s, 1, x) <==> NDIRECT <= x <= 15)
    && {Addr(s, (1, 12)), Addr(s, (1, 13)), Addr(s, (1, 14)), Addr(s, (1, 15))} == FreeBlocks()
    && Addr(s, (1, 11)) == 8204 && s.bmapstart == 8187
  }

  lemma NewBlocks(s: Fs)
    requires Holds(s)
    ensures NewAddrs(Image(), s, 1) == FreeBlocks() && Listing(Image(), s, 1) <= FreeBlocks()
  {
    hide Addr, Image, FreeBlocks, Newly;
    assert forall x: nat | 12 <= x <= 15 :: Addr(s, (1, x)) in NewAddrs(Image(), s, 1);
  }

  lemma NewMapBlocks(s: Fs)
    requires Holds(s)
    ensures NewMaps(Image(), s, 1) == {8187, 8188, 8189, 8190}
  {
    hide Addr, Image, Newly, Bblock;
    var maps := NewMaps(Image(), s, 1);
    assert forall x: nat | 12 <= x <= 15 :: Bblock(s, Addr(s, (1, x))) in maps;
    assert forall c | c in FreeBlocks() :: Bblock(s, c) in maps;
    Groups(s);
    forall m | m in maps ensures m in {8187, 8188, 8189, 8190} {
      var x: nat :| x < SLOTS && Newly(Image(), s, 1, x) && m == Bblock(s, Addr(s, (1, x)));
      assert Addr(s, (1, x)) in FreeBlocks();
    }
  }

  /** The four free blocks lie in four bitmap blocks. */
  lemma Groups(s: Fs)
    requires s.bmapstart == 8187
    ensures Bblock(s, 8191) == 8187 && Bblock(s, 8192) == 8188 && Bblock(s, 24575) == 8189 && Bblock(s, 24576) == 8190
  {
  }

  lemma DataBlocks(s: Fs)
    requires Holds(s)
    ensures 8204 in DataIn(s, 1, 11, 15) && DataIn(s, 1, 11, 15) <= FreeBlocks() + {8204}
  {
    hide Addr, Image, Newly, FreeBlocks;
    assert Addr(s, (1, SlotOf(11))) in DataIn(s, 1, 11, 15);
    forall c | c in DataIn(s, 1, 11, 15) ensures c in FreeBlocks() + {8204} {
      var bn: nat :| 11 <= bn < 15 && c == Addr(s, (1, SlotOf(bn)));
      assert bn == 11 || bn == 12 || bn == 13 || bn == 14;
    }
  }

  /** The ten blocks: the first data block, the four new blocks, their four bitmap blocks and the inode's block. */
  lemma TenBlocks(s: Fs, own: Owners)
    requires Written(s, own, 15) && forall bn: nat | 11 <= bn < 15 :: BlockMapped(s, 1, bn)
    ensures WriteLog(Image(), s, 1, OFFSET, MAX_CHUNK) + {INODESTART} ==
      {8204, 8191, 8192, 24575, 24576, 8187, 8188, 8189, 8190, INODESTART}
  {
    hide Addr, Inv, Image, Extends, OnlySpan, NewAddrs, NewMaps, Listing, DataIn, Newly, BlockMapped;
    AllTaken(s, own);
    FirstStays(s, own, 15);
    NewBlocks(s);
    NewMapBlocks(s);
    DataBlocks(s);
    assert OFFSET / BSIZE == 11 && Upto(OFFSET, MAX_CHUNK) == 15;
  }

  lemma Shorter(r: nat)
    requires r <= MAX_CHUNK
    ensures Last(OFFSET, r, MAX_CHUNK) <= 15 && Upto(OFFSET, r) <= 15 && OFFSET / BSIZE == 11
    ensures r < MAX_CHUNK ==> 11 <= (OFFSET + r) / BSIZE < 15
    ensures r == MAX_CHUNK ==> Upto(OFFSET, r) == Last(OFFSET, r, MAX_CHUNK) == 15
  {
  }

  lemma Accepted(s: Fs)
    requires 1 in s.inodes && s.inodes[1].size == OFFSET
    ensures !Rejected(s, 1, OFFSET, MAX_CHUNK)
  {
  }

  lemma FullStop(s: Fs, r: nat, part: nat)
    requires Stops(s, 1, OFFSET, MAX_CHUNK, MAX_CHUNK, r, part)
    ensures r <= MAX_CHUNK && (r < MAX_CHUNK ==> Full(s) && !BlockMapped(s, 1, (OFFSET + r) / BSIZE))
  {
    hide Full, BlockMapped;
  }

  /** What writei's answer and log are, from what it promises. */
  lemma Outcome(s: Fs, own: Owners, r: nat, part: nat, logged: set<nat>)
    requires Stops(s, 1, OFFSET, MAX_CHUNK, MAX_CHUNK, r, part) && Written(s, own, Last(OFFSET, r, MAX_CHUNK))
    requires forall bn: nat | 11 <= bn < Upto(OFFSET, r) :: BlockMapped(s, 1, bn)
    requires logged == WriteLog(Image(), s, 1, OFFSET, r) + {INODESTART}
    ensures r == MAX_CHUNK && |logged| == MAXOPBLOCKS
  {
    hide Written, BlockMapped, Full, WriteLog, Image, Stops, Last, Upto;
    FullStop(s, r, part);
    Shorter(r);
    if r < MAX_CHUNK {
      NotFull(s, own, Last(OFFSET, r, MAX_CHUNK), (OFFSET + r) / BSIZE);
      assert false;
    }
    TenBlocks(s, own);
  }

  /** A write of MAX_CHUNK bytes to file 1 of the image, at the end of the file, logs MAXOPBLOCKS blocks. */
  method FullWrite(src: seq<byte>) returns (d: Disk, r: int)
    requires |src| == MAX_CHUNK
    ensures fresh(d) && d.Good({}) && r == MAX_CHUNK && |d.logged| == MAXOPBLOCKS
  {
    hide Inv, Image, Extends, OnlySpan, Full, WriteLog, BlockMapped, Content, Stored, OwnersOf, Rejected, Upto;
    hide Last, Stops;
    ImageInv();
    ImageGeometry();
    d := new Disk(Image(), INODESTART, OwnersOf());
    Accepted(d.Model());
    ghost var part;
    r, part := d.Writei(1, src, OFFSET, MAX_CHUNK);
    FullStop(d.Model(), r, part);
    Shorter(r);
    Outcome(d.Model(), d.own, r, part, d.logged);
  }
}
