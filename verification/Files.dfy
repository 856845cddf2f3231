/** Inodes, their direct and indirect blocks, and the free map, as values; what every step of fs.c keeps. */
module Files {
  import opened Blocks
  import opened Bitmap

  const NDIRECT: nat := 12
  const SLOTS: nat := 269              // 12 direct blocks, the indirect block, and the 256 it lists
  const MAXFILE: nat := 268            // NDIRECT + NINDIRECT

  type Addrs = a: seq<uint> | |a| == 13 witness seq(13, _ => 0)

  datatype Inode = Inode(addrs: Addrs, size: nat)

  /** A place that can hold a block number: an inode, and an index below SLOTS. */
  type Slot = (nat, nat)

  datatype Fs = Fs(size: nat, bmapstart: nat, datastart: nat, disk: map<nat, Block>, inodes: map<nat, Inode>)

  /** The free map lies below the data blocks, and every block exists. */
  ghost predicate Geometry(s: Fs) {
    && 0 < s.bmapstart && s.bmapstart + (s.size + BPB - 1) / BPB <= s.datastart <= s.size < UINT_LIMIT
    && forall b: nat | b < s.size :: b in s.disk
  }

  function Bblock(s: Fs, b: nat): nat {
    b / BPB + s.bmapstart
  }

  ghost predicate Used(s: Fs, b: nat) {
    b < s.size && Bblock(s, b) in s.disk && BlockBit(s.disk[Bblock(s, b)], b % BPB)
  }

  ghost predicate ValidSlot(s: Fs, k: Slot) {
    k.0 in s.inodes && k.1 < SLOTS
  }

  /** The block number in a slot, 0 if none. */
  ghost function Addr(s: Fs, k: Slot): nat {
    if !ValidSlot(s, k) then 0
    else
      var a := s.inodes[k.0].addrs;
      if k.1 <= NDIRECT then a[k.1]
      else if a[NDIRECT] == 0 || a[NDIRECT] !in s.disk then 0
      else Word(s.disk[a[NDIRECT]], k.1 - NDIRECT - 1)
  }

  /** The slot of a file's block number bn. */
  function SlotOf(bn: nat): nat {
    if bn < NDIRECT then bn else bn + 1
  }

  // ---------- what every step keeps

  /** Which slot owns each allocated data block. */
  type Owners = map<nat, Slot>

  ghost predicate OwnAt(s: Fs, own: Owners) {
    forall b | b in own :: s.datastart <= b < s.size && ValidSlot(s, own[b]) && Addr(s, own[b]) == b
  }

  ghost predicate OwnAll(s: Fs, own: Owners) {
    forall k | ValidSlot(s, k) && Addr(s, k) != 0 :: Addr(s, k) in own && own[Addr(s, k)] == k
  }

  /** Marked in the free map are the blocks below the data area, the owned ones, and the loose ones in hand. */
  ghost predicate BitsOk(s: Fs, own: Owners, loose: set<nat>) {
    && (forall b: nat | b < s.size :: Used(s, b) <==> b < s.datastart || b in own || b in loose)
    && (forall b | b in loose :: s.datastart <= b < s.size && b !in own)
  }

  ghost predicate BlockMapped(s: Fs, i: nat, bn: nat) {
    Addr(s, (i, SlotOf(bn))) != 0
  }

  /** Every block below a file's size is mapped. */
  ghost predicate Sized(s: Fs) {
    forall i | i in s.inodes ::
      s.inodes[i].size <= MAXFILE * BSIZE && forall bn: nat | bn * BSIZE < s.inodes[i].size :: BlockMapped(s, i, bn)
  }

  ghost predicate Inv(s: Fs, own: Owners, loose: set<nat>) {
    Geometry(s) && OwnAt(s, own) && OwnAll(s, own) && BitsOk(s, own, loose) && Sized(s)
  }

  // ---------- content

  ghost function Byte(s: Fs, i: nat, k: nat): byte {
    var a := Addr(s, (i, SlotOf(k / BSIZE)));
    if a in s.disk then s.disk[a][k % BSIZE] else 0
  }

  ghost function Content(s: Fs, i: nat): seq<byte>
    requires i in s.inodes
  {
    seq(s.inodes[i].size, k requires 0 <= k => Byte(s, i, k))
  }

  /** No two slots hold the same block, and every block held is marked in the free map. */
  lemma Distinct(s: Fs, own: Owners, loose: set<nat>, k: Slot, j: Slot)
    requires Inv(s, own, loose) && ValidSlot(s, k) && ValidSlot(s, j) && Addr(s, k) != 0
    ensures Used(s, Addr(s, k)) && s.datastart <= Addr(s, k) < s.size
    ensures Addr(s, k) == Addr(s, j) ==> k == j
  {
    hide Sized, Addr;
  }

  // ---------- frames

  /** Same inodes and the same content of every owned block. */
  ghost predicate Agree(s: Fs, s': Fs, own: Owners) {
    && s'.size == s.size && s'.bmapstart == s.bmapstart && s'.datastart == s.datastart && s'.inodes == s.inodes
    && forall b | b in own :: b in s.disk && b in s'.disk && s'.disk[b] == s.disk[b]
  }

  lemma AgreeAddr(s: Fs, s': Fs, own: Owners, k: Slot)
    requires OwnAll(s, own) && Agree(s, s', own)
    ensures Addr(s', k) == Addr(s, k)
  {
    if ValidSlot(s, k) && k.1 > NDIRECT {
      var d: Slot := (k.0, NDIRECT);
      assert ValidSlot(s, d) && Addr(s, d) == s.inodes[k.0].addrs[NDIRECT];
    }
  }

  lemma AgreeAll(s: Fs, s': Fs, own: Owners)
    requires OwnAll(s, own) && Agree(s, s', own)
    ensures forall k: Slot :: Addr(s', k) == Addr(s, k)
  {
    forall k: Slot ensures Addr(s', k) == Addr(s, k) { AgreeAddr(s, s', own, k); }
  }

  lemma AgreeKeeps(s: Fs, s': Fs, own: Owners)
    requires OwnAt(s, own) && OwnAll(s, own) && Sized(s) && Agree(s, s', own)
    ensures OwnAt(s', own) && OwnAll(s', own) && Sized(s')
  {
    hide Addr;
    AgreeAll(s, s', own);
    forall i, bn: nat | i in s'.inodes && bn * BSIZE < s'.inodes[i].size ensures BlockMapped(s', i, bn) {
      assert BlockMapped(s, i, bn);
    }
  }

  // ---------- the free map

  /** Set or clear b's bit. */
  function Mark(s: Fs, b: nat, v: bool): Fs
    requires Bblock(s, b) in s.disk
  {
    s.(disk := s.disk[Bblock(s, b) := SetBlockBit(s.disk[Bblock(s, b)], b % BPB, v)])
  }

  lemma BblockBelow(s: Fs, b: nat)
    requires Geometry(s) && b < s.size
    ensures s.bmapstart <= Bblock(s, b) < s.datastart && Bblock(s, b) in s.disk
  {
  }

  lemma MarkUsed(s: Fs, b: nat, v: bool, c: nat)
    requires Geometry(s) && b < s.size && c < s.size
    ensures Bblock(s, b) in s.disk && (Used(Mark(s, b, v), c) <==> if c == b then v else Used(s, c))
  {
    hide BlockBit, SetBlockBit;
    BblockBelow(s, b);
    BblockBelow(s, c);
    SetBlockBitBits(s.disk[Bblock(s, b)], b % BPB, v, c % BPB);
  }

  /** balloc once it has found b: mark it and zero it. */
  function Alloc(s: Fs, b: nat): Fs
    requires Bblock(s, b) in s.disk
  {
    var s1 := Mark(s, b, true);
    s1.(disk := s1.disk[b := ZeroBlock()])
  }

  lemma AllocUsed(s: Fs, b: nat, c: nat)
    requires Geometry(s) && s.datastart <= b < s.size && c < s.size
    ensures Bblock(s, b) in s.disk && (Used(Alloc(s, b), c) <==> c == b || Used(s, c))
  {
    hide BlockBit, SetBlockBit, ZeroBlock;
    MarkUsed(s, b, true, c);
    BblockBelow(s, c);
    BblockBelow(s, b);
  }

  /** A free block is a data block that nobody owns. */
  lemma FreeBlock(s: Fs, own: Owners, loose: set<nat>, b: nat)
    requires Inv(s, own, loose) && b < s.size && !Used(s, b)
    ensures s.datastart <= b && b !in own && b !in loose && Bblock(s, b) in s.disk
  {
    hide Used, OwnAt, OwnAll, Sized;
    BblockBelow(s, b);
  }

  lemma AllocAgrees(s: Fs, own: Owners, b: nat)
    requires Geometry(s) && OwnAt(s, own) && s.datastart <= b < s.size && b !in own
    ensures Bblock(s, b) in s.disk && Agree(s, Alloc(s, b), own) && Geometry(Alloc(s, b))
  {
    hide SetBlockBit, ZeroBlock, Addr;
    BblockBelow(s, b);
  }

  /** Allocation takes a block nobody owned and leaves every file as it was; the block is zeroed and in hand. */
  lemma AllocInv(s: Fs, own: Owners, loose: set<nat>, b: nat)
    requires Inv(s, own, loose) && b < s.size && !Used(s, b)
    ensures Bblock(s, b) in s.disk && Inv(Alloc(s, b), own, loose + {b}) && Agree(s, Alloc(s, b), own)
    ensures b in Alloc(s, b).disk && Alloc(s, b).disk[b] == ZeroBlock() && b !in own
  {
    hide Used, Sized, OwnAt, OwnAll, Agree, ZeroBlock, Geometry;
    FreeBlock(s, own, loose, b);
    AllocAgrees(s, own, b);
    AgreeKeeps(s, Alloc(s, b), own);
    forall c: nat | c < s.size ensures Used(Alloc(s, b), c) <==> c == b || Used(s, c) { AllocUsed(s, b, c); }
  }

  // ---------- putting a block into a slot

  /** s' differs from s in one slot, which was empty and now holds b. */
  ghost predicate Attached(s: Fs, s': Fs, slot: Slot, b: nat) {
    && s'.size == s.size && s'.bmapstart == s.bmapstart && s'.datastart == s.datastart
    && s'.inodes.Keys == s.inodes.Keys && (forall i | i in s.inodes :: s'.inodes[i].size == s.inodes[i].size)
    && s'.disk.Keys == s.disk.Keys && ValidSlot(s, slot) && Addr(s, slot) == 0
    && (forall k: Slot :: Addr(s', k) == if k == slot then b else Addr(s, k))
    && (forall c: nat | c < s.datastart && c in s.disk :: s'.disk[c] == s.disk[c])
  }

  lemma AttachedUsed(s: Fs, s': Fs, slot: Slot, b: nat, c: nat)
    requires Geometry(s) && Attached(s, s', slot, b) && c < s.size
    ensures Used(s', c) <==> Used(s, c)
  {
    hide Addr, BlockBit;
    BblockBelow(s, c);
  }

  lemma AttachedOwn(s: Fs, s': Fs, slot: Slot, b: nat, own: Owners)
    requires OwnAt(s, own) && OwnAll(s, own) && Attached(s, s', slot, b) && 0 < s.datastart <= b < s.size && b !in own
    ensures OwnAt(s', own[b := slot]) && OwnAll(s', own[b := slot])
  {
    hide Addr;
    var own' := own[b := slot];
    forall c | c in own' ensures s'.datastart <= c < s'.size && ValidSlot(s', own'[c]) && Addr(s', own'[c]) == c {
      if c != b {
        assert Addr(s, own[c]) == c;
      }
    }
  }

  lemma AttachedSized(s: Fs, s': Fs, slot: Slot, b: nat)
    requires Sized(s) && Attached(s, s', slot, b) && b != 0
    ensures Sized(s')
  {
    hide Addr;
    forall i, bn: nat | i in s'.inodes && bn * BSIZE < s'.inodes[i].size ensures BlockMapped(s', i, bn) {
      assert BlockMapped(s, i, bn);
    }
  }

  lemma AttachedInv(s: Fs, s': Fs, slot: Slot, b: nat, own: Owners, loose: set<nat>)
    requires Inv(s, own, loose) && Attached(s, s', slot, b) && b in loose
    ensures Inv(s', own[b := slot], loose - {b})
  {
    assert s.datastart <= b < s.size && b !in own;
    AttachedOwn(s, s', slot, b, own);
    AttachedSized(s, s', slot, b);
    assert BitsOk(s', own[b := slot], loose - {b}) by {
      hide OwnAt, OwnAll, Sized, Addr, Used;
      forall c: nat | c < s.size ensures Used(s', c) <==> Used(s, c) { AttachedUsed(s, s', slot, b, c); }
    }
  }

  /** ip->addrs[x] = b */
  function AttachDirect(s: Fs, i: nat, x: nat, b: uint): Fs
    requires i in s.inodes && x <= NDIRECT
  {
    s.(inodes := s.inodes[i := s.inodes[i].(addrs := s.inodes[i].addrs[x := b])])
  }

  /** A new indirect block lists nothing, because balloc zeroed it. */
  lemma AttachDirectIs(s: Fs, i: nat, x: nat, b: uint)
    requires i in s.inodes && x <= NDIRECT && s.inodes[i].addrs[x] == 0
    requires x == NDIRECT ==> b in s.disk && s.disk[b] == ZeroBlock()
    ensures Attached(s, AttachDirect(s, i, x, b), (i, x), b)
  {
    hide ZeroBlock, Word;
    var s' := AttachDirect(s, i, x, b);
    forall k: Slot ensures Addr(s', k) == if k == (i, x) then b else Addr(s, k) {
      if k.0 == i && x == NDIRECT && NDIRECT < k.1 < SLOTS {
        WordOfZero(k.1 - NDIRECT - 1);
      }
    }
  }

  /** a[j] = b in the indirect block */
  function AttachIndirect(s: Fs, i: nat, j: nat, b: uint): Fs
    requires i in s.inodes && s.inodes[i].addrs[NDIRECT] in s.disk && j < WORDS
  {
    var d := s.inodes[i].addrs[NDIRECT];
    s.(disk := s.disk[d := SetWord(s.disk[d], j, b)])
  }

  lemma AttachIndirectIs(s: Fs, own: Owners, loose: set<nat>, i: nat, j: nat, b: uint)
    requires Inv(s, own, loose) && i in s.inodes && j < WORDS
    requires s.inodes[i].addrs[NDIRECT] != 0 && Addr(s, (i, NDIRECT + 1 + j)) == 0
    ensures s.inodes[i].addrs[NDIRECT] in s.disk
    ensures Attached(s, AttachIndirect(s, i, j, b), (i, NDIRECT + 1 + j), b)
  {
    hide Word, SetWord, Sized, BitsOk, Used;
    var d := s.inodes[i].addrs[NDIRECT];
    assert ValidSlot(s, (i, NDIRECT)) && Addr(s, (i, NDIRECT)) == d;
    assert d in own && own[d] == (i, NDIRECT);
    var s' := AttachIndirect(s, i, j, b);
    forall k: Slot ensures Addr(s', k) == if k == (i, NDIRECT + 1 + j) then b else Addr(s, k) {
      if ValidSlot(s, k) && k.1 > NDIRECT {
        OtherIndirect(s, own, k.0, i);
        WordOfSetWord(s.disk[d], j, b, k.1 - NDIRECT - 1);
      }
    }
  }

  lemma OtherIndirect(s: Fs, own: Owners, i: nat, j: nat)
    requires OwnAll(s, own) && i in s.inodes && j in s.inodes
    ensures s.inodes[i].addrs[NDIRECT] == s.inodes[j].addrs[NDIRECT] != 0 ==> i == j
  {
    assert ValidSlot(s, (i, NDIRECT)) && Addr(s, (i, NDIRECT)) == s.inodes[i].addrs[NDIRECT];
    assert ValidSlot(s, (j, NDIRECT)) && Addr(s, (j, NDIRECT)) == s.inodes[j].addrs[NDIRECT];
  }

  // ---------- data

  function WriteData(s: Fs, a: nat, blk: Block): Fs {
    s.(disk := s.disk[a := blk])
  }

  /** Storing into a file's data block moves no block and changes no bit. */
  lemma WriteDataAddr(s: Fs, own: Owners, loose: set<nat>, a: nat, blk: Block, k: Slot)
    requires Inv(s, own, loose) && a in own && own[a].1 != NDIRECT
    ensures Addr(WriteData(s, a, blk), k) == Addr(s, k)
  {
    hide Word, Sized, BitsOk, Used;
    if ValidSlot(s, k) && k.1 > NDIRECT {
      assert ValidSlot(s, (k.0, NDIRECT)) && Addr(s, (k.0, NDIRECT)) == s.inodes[k.0].addrs[NDIRECT];
    }
  }

  lemma WriteDataInv(s: Fs, own: Owners, loose: set<nat>, a: nat, blk: Block)
    requires Inv(s, own, loose) && a in own && own[a].1 != NDIRECT
    ensures Inv(WriteData(s, a, blk), own, loose)
    ensures forall k: Slot :: Addr(WriteData(s, a, blk), k) == Addr(s, k)
  {
    hide Addr;
    var s' := WriteData(s, a, blk);
    forall k: Slot ensures Addr(s', k) == Addr(s, k) { WriteDataAddr(s, own, loose, a, blk, k); }
    assert OwnAt(s', own) && OwnAll(s', own);
    forall i, bn: nat | i in s'.inodes && bn * BSIZE < s'.inodes[i].size ensures BlockMapped(s', i, bn) {
      assert BlockMapped(s, i, bn);
    }
    forall c: nat | c < s.size ensures Used(s', c) <==> Used(s, c) { DataUsed(s, a, blk, c); }
  }

  lemma DataUsed(s: Fs, a: nat, blk: Block, c: nat)
    requires Geometry(s) && s.datastart <= a && c < s.size
    ensures Used(WriteData(s, a, blk), c) <==> Used(s, c)
  {
    hide BlockBit;
    BblockBelow(s, c);
  }

  // ---------- no file changes

  /** Every data block a file has stays where it is with its content, and every size stays. */
  ghost predicate Keeps(s: Fs, s': Fs) {
    && s'.size == s.size && s'.bmapstart == s.bmapstart && s'.datastart == s.datastart
    && s'.inodes.Keys == s.inodes.Keys && (forall i | i in s.inodes :: s'.inodes[i].size == s.inodes[i].size)
    && forall k: Slot | Addr(s, k) != 0 && k.1 != NDIRECT :: Kept(s, s', k)
  }

  ghost predicate Kept(s: Fs, s': Fs, k: Slot) {
    var a := Addr(s, k);
    Addr(s', k) == a && a in s.disk && a in s'.disk && s'.disk[a] == s.disk[a]
  }

  lemma KeepsTrans(s: Fs, t: Fs, u: Fs)
    requires Keeps(s, t) && Keeps(t, u)
    ensures Keeps(s, u)
  {
    hide Addr;
    forall k: Slot | Addr(s, k) != 0 && k.1 != NDIRECT ensures Kept(s, u, k) {
      assert Kept(s, t, k);
      assert Kept(t, u, k);
    }
  }

  lemma AgreeKept(s: Fs, s': Fs, own: Owners)
    requires OwnAll(s, own) && Agree(s, s', own)
    ensures Keeps(s, s')
  {
    hide Addr;
    AgreeAll(s, s', own);
    forall k: Slot | Addr(s, k) != 0 && k.1 != NDIRECT ensures Kept(s, s', k) {
      AddrValid(s, k);
    }
  }

  lemma AddrValid(s: Fs, k: Slot)
    ensures Addr(s, k) != 0 ==> ValidSlot(s, k)
  {
  }

  lemma AttachDirectKept(s: Fs, own: Owners, loose: set<nat>, i: nat, x: nat, b: uint)
    requires Inv(s, own, loose) && i in s.inodes && x <= NDIRECT && Attached(s, AttachDirect(s, i, x, b), (i, x), b)
    ensures Keeps(s, AttachDirect(s, i, x, b))
  {
    hide Addr, Sized, BitsOk;
    forall k: Slot | Addr(s, k) != 0 && k.1 != NDIRECT ensures Kept(s, AttachDirect(s, i, x, b), k) {
      AddrValid(s, k);
    }
  }

  lemma AttachIndirectKept(s: Fs, own: Owners, loose: set<nat>, i: nat, j: nat, b: uint)
    requires Inv(s, own, loose) && i in s.inodes && j < WORDS && s.inodes[i].addrs[NDIRECT] != 0
    requires s.inodes[i].addrs[NDIRECT] in s.disk
    requires Attached(s, AttachIndirect(s, i, j, b), (i, NDIRECT + 1 + j), b)
    ensures Keeps(s, AttachIndirect(s, i, j, b))
  {
    hide Addr, Sized, BitsOk, SetWord;
    var d := s.inodes[i].addrs[NDIRECT];
    IndirectSlot(s, i);
    forall k: Slot | Addr(s, k) != 0 && k.1 != NDIRECT ensures Kept(s, AttachIndirect(s, i, j, b), k) {
      AddrValid(s, k);
    }
  }

  lemma IndirectSlot(s: Fs, i: nat)
    requires i in s.inodes
    ensures ValidSlot(s, (i, NDIRECT)) && Addr(s, (i, NDIRECT)) == s.inodes[i].addrs[NDIRECT]
  {
  }

  /** No file's content changes. */
  lemma KeepsContent(s: Fs, s': Fs, i: nat)
    requires Sized(s) && Keeps(s, s') && i in s.inodes
    ensures i in s'.inodes && Content(s', i) == Content(s, i)
  {
    hide Addr;
    forall k: nat | k < s.inodes[i].size ensures Byte(s', i, k) == Byte(s, i, k) {
      assert BlockMapped(s, i, k / BSIZE);
      assert Kept(s, s', (i, SlotOf(k / BSIZE)));
    }
  }
}
